/**
 * `match_app_to_config`: map the identifier detected in an export file to
 * the first configured app that any of four case-insensitive substring
 * tests accepts.
 */
module AppMatch {
  import opened Wrappers
  import opened Text

  /** One entry of the `apps` list of the configuration; `rcProjectId` may be left out. */
  datatype AppConfig = AppConfig(rcProjectId: Option<string>, name: string, slug: string)

  /** `field.lower() in detected_lower or detected_lower in field.lower()`. */
  predicate EitherContains(detectedLower: string, field: string) {
    Contains(detectedLower, Lower(field)) || Contains(Lower(field), detectedLower)
  }

  /** Test 1, on `app.get('rc_project_id', '')`. */
  predicate MatchesProjectId(app: AppConfig, detectedLower: string) {
    EitherContains(detectedLower, app.rcProjectId.GetOr(""))
  }

  /** Test 2, on the app's name. */
  predicate MatchesName(app: AppConfig, detectedLower: string) {
    EitherContains(detectedLower, app.name)
  }

  /** Test 3, on the app's slug. */
  predicate MatchesSlug(app: AppConfig, detectedLower: string) {
    EitherContains(detectedLower, app.slug)
  }

  /**
   * Test 4: the slug without '-' (not lower-cased) occurs in the detected id
   * without '.' and '-', e.g. "girl-talk" in "com.tangent.girltalk".
   */
  predicate MatchesProductPrefix(app: AppConfig, detectedLower: string) {
    Contains(Remove(Remove(detectedLower, '.'), '-'), Remove(app.slug, '-'))
  }

  /** Some test accepts the app; the order of the tests does not matter, each returns the app. */
  predicate Matches(app: AppConfig, detectedLower: string) {
    MatchesProjectId(app, detectedLower) || MatchesName(app, detectedLower)
    || MatchesSlug(app, detectedLower) || MatchesProductPrefix(app, detectedLower)
  }

  /** `apps[i]` is the first app of the list that matches. */
  ghost predicate IsFirstMatch(apps: seq<AppConfig>, detectedLower: string, i: int) {
    0 <= i < |apps| && Matches(apps[i], detectedLower)
    && forall j :: 0 <= j < i ==> !Matches(apps[j], detectedLower)
  }

  /** The loop over `config_apps` with its early returns. */
  function FirstMatch(apps: seq<AppConfig>, detectedLower: string): (r: Option<AppConfig>)
    ensures r.None? <==> forall j :: 0 <= j < |apps| ==> !Matches(apps[j], detectedLower)
    ensures r.Some? ==> exists i :: IsFirstMatch(apps, detectedLower, i) && apps[i] == r.value
  {
    if apps == [] then None
    else if Matches(apps[0], detectedLower) then
      assert IsFirstMatch(apps, detectedLower, 0);
      Some(apps[0])
    else
      var r := FirstMatch(apps[1..], detectedLower);
      assert r.Some? ==> exists i :: IsFirstMatch(apps, detectedLower, i) && apps[i] == r.value by {
        if r.Some? {
          var i :| IsFirstMatch(apps[1..], detectedLower, i) && apps[1..][i] == r.value;
          assert IsFirstMatch(apps, detectedLower, i + 1);
        }
      }
      assert forall j :: 1 <= j < |apps| ==> apps[j] == apps[1..][j - 1];
      r
  }

  /** `match_app_to_config(detected_id, detected_col, config_apps)`; `detected_col` is not used. */
  function MatchAppToConfig(detectedId: Option<string>, apps: seq<AppConfig>): (r: Option<AppConfig>)
    ensures detectedId.None? ==> r.None?
    ensures detectedId.Some? && r.None? ==>
              forall j :: 0 <= j < |apps| ==> !Matches(apps[j], Lower(detectedId.value))
    ensures r.Some? ==>
              detectedId.Some? && exists i :: IsFirstMatch(apps, Lower(detectedId.value), i) && apps[i] == r.value
  {
    match detectedId
    case None => None
    case Some(id) => FirstMatch(apps, Lower(id))
  }

  /** An app that matches is never passed over for a later one or for no app at all. */
  lemma EarlierAppsWin(detectedId: string, apps: seq<AppConfig>, k: int)
    requires 0 <= k < |apps| && Matches(apps[k], Lower(detectedId))
    ensures exists i :: 0 <= i <= k && IsFirstMatch(apps, Lower(detectedId), i)
                        && MatchAppToConfig(Some(detectedId), apps) == Some(apps[i])
  {
    var r := MatchAppToConfig(Some(detectedId), apps);
    var i :| IsFirstMatch(apps, Lower(detectedId), i) && apps[i] == r.value;
    assert i <= k;
  }

  /** Without an `rc_project_id` the app tests against '', which is in every string. */
  lemma AppWithoutProjectIdMatchesAll(app: AppConfig, detectedLower: string)
    requires app.rcProjectId.None?
    ensures Matches(app, detectedLower)
  {
    assert Lower("") == "";
    EmptyIsInEverything(detectedLower);
  }

  /** So once such an app is configured, every detected id is matched to some app. */
  lemma AppWithoutProjectIdCatchesAll(detectedId: string, apps: seq<AppConfig>, k: int)
    requires 0 <= k < |apps| && apps[k].rcProjectId.None?
    ensures MatchAppToConfig(Some(detectedId), apps).Some?
  {
    AppWithoutProjectIdMatchesAll(apps[k], Lower(detectedId));
  }

  /** An empty detected id is in every field, so the first configured app wins. */
  lemma EmptyIdMatchesFirstApp(apps: seq<AppConfig>)
    requires apps != []
    ensures MatchAppToConfig(Some(""), apps) == Some(apps[0])
  {
    assert Lower("") == "";
    EmptyIsInEverything(Lower(apps[0].name));
    assert Matches(apps[0], "");
  }

  /**
   * Test 4 does not lower-case the slug: a slug with a capital letter is never
   * accepted by it, since the detected id it is compared with is lower-cased.
   */
  lemma CapitalInSlugDefeatsPrefixTest(app: AppConfig, detectedId: string, c: char)
    requires 'A' <= c <= 'Z' && c in app.slug
    ensures !MatchesProductPrefix(app, Lower(detectedId))
  {
    var d := Lower(detectedId);
    assert c !in d by {
      forall i | 0 <= i < |d| ensures d[i] != c {
        assert d[i] == LowerChar(detectedId[i]);
      }
    }
    NotContainedBecauseMissingChar(Remove(Remove(d, '.'), '-'), Remove(app.slug, '-'), c);
  }

  /** The slug test, unlike test 4, gives the same answer for the lower-cased slug. */
  lemma SlugTestIgnoresCase(app: AppConfig, detectedLower: string)
    ensures MatchesSlug(app, detectedLower) <==> MatchesSlug(app.(slug := Lower(app.slug)), detectedLower)
  {
    LowerIdempotent(app.slug);
  }
}
