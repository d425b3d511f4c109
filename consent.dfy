/** The values of the cookie-consent tracker: its configuration, the names and
    texts of its cookies, the consent status and selected categories, and the
    pure rules over them (hasAgreed, showBanner, cookieMatches, isAllowed, the
    required-category merge, the domain walk of the cookie sweep). The object
    that holds the state and changes it is in module Tracker. */
module Consent {
  import opened Common
  import opened Decimal
  import opened Json
  import opened Glob

  /** Statuses: None is null (not yet agreed, or withdrawn), 0 disagreed,
      1 agreed with the thank-you banner still to show, 2 agreed. Any other
      integer can come from a tampered cookie. */
  type Status = Option<int>

  datatype Method = Default | OptIn | OptOut | Categories

  /** One entry of cookie_categories_details. */
  datatype CategoryDetail = CategoryDetail(machineName: string, defaultState: string)

  /** The page settings the tracker reads (Drupal.settings.eu_cookie_compliance),
      plus the page-global cookie name override. An absent text setting is
      None; the domain is '' when the setting is falsy. */
  datatype Config = Config(
    consentMethod: Method,
    popupEnabled: bool,
    popupAgreedEnabled: bool,
    disagreeDoNotShowPopup: bool,
    withdrawEnabled: bool,
    withdrawButtonOnInfoPopup: bool,
    storeConsent: bool,
    reloadPage: bool,
    cookieSession: bool,
    automaticCookiesRemoval: bool,
    popupEuOnly: bool,
    allowedCookies: string,
    policyVersion: string,
    categoryDetails: seq<CategoryDetail>,
    cookieCategories: seq<string>,
    domain: string,
    basePath: string,
    domainAllSites: bool,
    lifetime: int,
    popupLanguage: string,
    globalCookieName: Option<string>,
    settingsCookieName: Option<string>)

  datatype Expiry = Session | Days(days: int)

  /** A cookie as the jar holds it, its value already decoded. */
  datatype Cookie = Cookie(value: string, path: string, domain: string, expiry: Expiry)

  type Jar = map<string, Cookie>

  /** What the tracker does that is visible outside its own state. */
  datatype Effect =
    | Hook(event: string, handler: nat, status: Status, categories: seq<string>)
    | StatusChanged(status: Status)
    | PreferencesChanged(categories: seq<string>)
    | ConsentStored
    | Reload
    | LoadScripts
    | LoadCategoryScripts(category: string)
    | RemovalAttempt(name: string, domain: string)
    | ExpiryWrite(name: string)
    | EuCheckRequested
    | Popup(closed: bool)
    | ThankYouBanner
    | WithdrawControls(banner: bool)
    | OpenPolicyLink

  // ---- cookie names, paths and texts ----

  predicate Unset(name: Option<string>) {
    name.None? || name.value == ""
  }

  /** The status cookie: eu_cookie_compliance_cookie_name, or "cookie-agreed". */
  function StatusCookieName(cfg: Config): string {
    if Unset(cfg.globalCookieName) then "cookie-agreed" else cfg.globalCookieName.value
  }

  /** The text JavaScript makes of the settings' cookie_name ("undefined" when absent). */
  function SettingsName(cfg: Config): string {
    if cfg.settingsCookieName.None? then "undefined" else cfg.settingsCookieName.value
  }

  /** The categories cookie: the page global decides whether the default is
      used, the settings' cookie_name gives the other name. */
  function CategoriesCookieName(cfg: Config): string {
    if Unset(cfg.globalCookieName) then "cookie-agreed-categories" else SettingsName(cfg) + "-categories"
  }

  /** The base of the names isAllowed and the version cookie use. */
  function BaseName(cfg: Config): string {
    if Unset(cfg.settingsCookieName) then "cookie-agreed" else cfg.settingsCookieName.value
  }

  function VersionCookieName(cfg: Config): string {
    BaseName(cfg) + "-version"
  }

  /** The path the cookies are written under before trimming. */
  function RawPath(cfg: Config): string {
    if cfg.domainAllSites then "/" else cfg.basePath
  }

  /** A path longer than one character loses one trailing '/'. */
  function TrimPath(p: string): (r: string)
    ensures |p| > 1 && p[|p| - 1] == '/' ==> p == r + "/"
    ensures !(|p| > 1 && p[|p| - 1] == '/') ==> r == p
  {
    if |p| > 1 && p[|p| - 1] == '/' then
      assert p == p[..|p| - 1] + "/";
      p[..|p| - 1]
    else p
  }

  function CookiePath(cfg: Config): string {
    TrimPath(RawPath(cfg))
  }

  function ExpiryFor(cfg: Config): Expiry {
    if cfg.cookieSession then Session else Days(cfg.lifetime)
  }

  /** How a status is written: String(status), "null" for null. */
  function StatusText(s: Status): string {
    if s.None? then "null" else IntToString(s.value)
  }

  /** parseInt of the stored status, NaN read as null; an absent cookie is NaN too. */
  function ReadStatus(cfg: Config, jar: Jar): Status {
    var name := StatusCookieName(cfg);
    if name in jar then ParseInt(jar[name].value) else None
  }

  /** A written status reads back as itself. */
  lemma StatusTextRoundTrip(s: Status)
    ensures ParseInt(StatusText(s)) == s
  {
    if s.None? {
      ParseIntRejects("null");
    } else {
      ParseIntOfIntToString(s.value);
    }
  }

  /** The categories cookie must hold a JSON array of strings when present:
      its decode is not guarded. */
  predicate CategoriesCookieReadable(cfg: Config, jar: Jar) {
    var name := CategoriesCookieName(cfg);
    name in jar ==> ParseStrings(jar[name].value).Some?
  }

  /** The stored categories, [] when the cookie is absent. */
  function StoredCategories(cfg: Config, jar: Jar): seq<string>
    requires CategoriesCookieReadable(cfg, jar)
  {
    var name := CategoriesCookieName(cfg);
    if name in jar then ParseStrings(jar[name].value).value else []
  }

  function GetVersion(cfg: Config, jar: Jar): Option<string> {
    var name := VersionCookieName(cfg);
    if name in jar then Some(jar[name].value) else None
  }

  // ---- required categories ----

  predicate IsRequired(d: CategoryDetail) {
    d.defaultState == "required"
  }

  /** The list after the merge loop of getAcceptedCategories has gone over
      `details`: each required category not yet in the list is pushed. */
  function MergeRequired(cats: seq<string>, details: seq<CategoryDetail>): seq<string>
    decreases |details|
  {
    if details == [] then cats
    else
      var d := details[0];
      MergeRequired(if IsRequired(d) && d.machineName !in cats then cats + [d.machineName] else cats, details[1..])
  }

  /** The merge keeps the stored list as a prefix, contains every required
      category, and adds nothing but required categories. */
  lemma {:induction false} MergeRequiredProperties(cats: seq<string>, details: seq<CategoryDetail>)
    ensures |cats| <= |MergeRequired(cats, details)| && MergeRequired(cats, details)[..|cats|] == cats
    ensures forall i :: 0 <= i < |details| && IsRequired(details[i]) ==>
      details[i].machineName in MergeRequired(cats, details)
    ensures forall x :: x in MergeRequired(cats, details) ==>
      x in cats || exists i :: 0 <= i < |details| && IsRequired(details[i]) && details[i].machineName == x
    decreases |details|
  {
    if details != [] {
      var d := details[0];
      var next := if IsRequired(d) && d.machineName !in cats then cats + [d.machineName] else cats;
      MergeRequiredProperties(next, details[1..]);
      var r := MergeRequired(cats, details);
      assert r[..|next|][..|cats|] == r[..|cats|];
      forall i | 0 <= i < |details| && IsRequired(details[i]) ensures details[i].machineName in r {
        if i == 0 {
          assert d.machineName in next;
          assert next == r[..|next|];
        } else {
          assert details[1..][i - 1] == details[i];
        }
      }
      forall x | x in r
        ensures x in cats || exists i :: 0 <= i < |details| && IsRequired(details[i]) && details[i].machineName == x
      {
        if x !in next {
          var i :| 0 <= i < |details[1..]| && IsRequired(details[1..][i]) && details[1..][i].machineName == x;
          assert details[i + 1] == details[1..][i];
        } else if x !in cats {
          assert IsRequired(details[0]) && details[0].machineName == x;
        }
      }
    }
  }

  predicate NoDuplicates(s: seq<string>) {
    forall i, j :: 0 <= i < j < |s| ==> s[i] != s[j]
  }

  /** A required name already present is not pushed again. */
  lemma {:induction false} MergeRequiredNoDuplicates(cats: seq<string>, details: seq<CategoryDetail>)
    requires NoDuplicates(cats)
    ensures NoDuplicates(MergeRequired(cats, details))
    decreases |details|
  {
    if details != [] {
      var d := details[0];
      var next := if IsRequired(d) && d.machineName !in cats then cats + [d.machineName] else cats;
      assert NoDuplicates(next) by {
        forall i, j | 0 <= i < j < |next| ensures next[i] != next[j] {
          if j == |cats| { assert next[i] == cats[i]; }
        }
      }
      MergeRequiredNoDuplicates(next, details[1..]);
    }
  }

  /** A list that already holds every required category comes back unchanged. */
  lemma {:induction false} MergeRequiredNoop(cats: seq<string>, details: seq<CategoryDetail>)
    requires forall i :: 0 <= i < |details| && IsRequired(details[i]) ==> details[i].machineName in cats
    ensures MergeRequired(cats, details) == cats
    decreases |details|
  {
    if details != [] {
      forall i | 0 <= i < |details[1..]| && IsRequired(details[1..][i])
        ensures details[1..][i].machineName in cats
      {
        assert details[1..][i] == details[i + 1];
      }
      MergeRequiredNoop(cats, details[1..]);
    }
  }

  // ---- queries ----

  /** hasAgreed(category): agreed is status 1 or 2; with a category it must
      also be selected. */
  function HasAgreed(status: Status, categories: seq<string>, category: Option<string>): bool {
    var agreed := status == Some(1) || status == Some(2);
    if category.Some? && agreed then category.value in categories else agreed
  }

  lemma HasAgreedMeaning(status: Status, categories: seq<string>, c: string)
    ensures HasAgreed(status, categories, None) <==> status == Some(1) || status == Some(2)
    ensures HasAgreed(status, categories, Some(c)) <==> HasAgreed(status, categories, None) && c in categories
    ensures status.None? || status == Some(0) ==> !HasAgreed(status, categories, Some(c))
  {
  }

  function ShowBanner(cfg: Config, status: Status): bool {
    if (status == Some(0) && cfg.consentMethod == Default) || status.None? then
      !cfg.disagreeDoNotShowPopup || status.None?
    else status == Some(1) && cfg.popupAgreedEnabled
  }

  /** The banner shows exactly for: no status; a disagreement under method
      'default' when the popup may come back; status 1 with the thank-you
      banner enabled. */
  lemma ShowBannerMeaning(cfg: Config, status: Status)
    ensures ShowBanner(cfg, status) <==>
      status.None?
      || (status == Some(0) && cfg.consentMethod == Default && !cfg.disagreeDoNotShowPopup)
      || (status == Some(1) && cfg.popupAgreedEnabled)
    ensures status == Some(2) ==> !ShowBanner(cfg, status)
  {
  }

  // ---- the allow-list ----

  /** allowed_cookies split on line breaks, then the three consent cookies. */
  function AllowList(cfg: Config): seq<string> {
    var base := BaseName(cfg);
    SplitLines(cfg.allowedCookies) + [base, base + "-categories", base + "-version"]
  }

  /** Every allow-list entry is a pattern the model covers. */
  predicate ConfigOk(cfg: Config) {
    forall i :: 0 <= i < |AllowList(cfg)| ==> SafePattern(AllowList(cfg)[i])
  }

  /** The part of an entry after its first ':'. */
  lemma SafeSuffix(p: string, k: nat)
    requires SafePattern(p) && k <= |p|
    ensures SafePattern(p[k..])
  {
    if '*' in p[k..] {
      var j :| 0 <= j < |p[k..]| && p[k..][j] == '*';
      assert p[k + j] == '*';
      forall i | 0 <= i < |p[k..]| ensures !IsRegexSpecial(p[k..][i]) { assert p[k..][i] == p[k + i]; }
    }
  }

  /** Whether one entry admits the cookie: by a direct match, or under method
      'categories' as "category:pattern" with the category selected. */
  predicate EntryAdmits(cfg: Config, categories: seq<string>, entry: string, name: string)
    requires SafePattern(entry)
  {
    CookieMatches(name, entry)
    || (cfg.consentMethod == Categories && Find(entry, ":").Some? &&
        var k := Find(entry, ":").value;
        SafeSuffix(entry, k + 1);
        CookieMatches(name, entry[k + 1..]) && entry[..k] in categories)
  }

  /** isAllowed(cookieName), stated over the whole list. */
  predicate Allowed(cfg: Config, categories: seq<string>, name: string)
    requires ConfigOk(cfg)
  {
    StartsWith(name, "SESS") || StartsWith(name, "SSESS")
    || exists i :: 0 <= i < |AllowList(cfg)| && EntryAdmits(cfg, categories, AllowList(cfg)[i], name)
  }

  /** isAllowed: the loop over the allow-list, returning at the first entry
      that admits the cookie. */
  method IsAllowed(cfg: Config, categories: seq<string>, name: string) returns (r: bool)
    requires ConfigOk(cfg)
    ensures r == Allowed(cfg, categories, name)
  {
    if StartsWith(name, "SESS") || StartsWith(name, "SSESS") {
      return true;
    }
    var list := AllowList(cfg);
    var i := 0;
    while i < |list|
      invariant 0 <= i <= |list|
      invariant forall j :: 0 <= j < i ==> !EntryAdmits(cfg, categories, list[j], name)
    {
      var item := list[i];
      if CookieMatches(name, item) {
        return true;
      }
      if cfg.consentMethod == Categories {
        var sep := Find(item, ":");
        if sep.Some? {
          var category := item[..sep.value];
          SafeSuffix(item, sep.value + 1);
          var pattern := item[sep.value + 1..];
          if CookieMatches(name, pattern) && category in categories {
            return true;
          }
        }
      }
      i := i + 1;
    }
    return false;
  }

  /** The session cookies and the tracker's own three cookies are always allowed. */
  lemma AlwaysAllowed(cfg: Config, categories: seq<string>, name: string)
    requires ConfigOk(cfg)
    requires StartsWith(name, "SESS") || StartsWith(name, "SSESS")
      || name == BaseName(cfg) || name == BaseName(cfg) + "-categories" || name == VersionCookieName(cfg)
    ensures Allowed(cfg, categories, name)
  {
    var list := AllowList(cfg);
    var n := |SplitLines(cfg.allowedCookies)|;
    assert list[n] == BaseName(cfg) && list[n + 1] == BaseName(cfg) + "-categories" && list[n + 2] == VersionCookieName(cfg);
    if name == BaseName(cfg) {
      assert EntryAdmits(cfg, categories, list[n], name);
    } else if name == BaseName(cfg) + "-categories" {
      assert EntryAdmits(cfg, categories, list[n + 1], name);
    } else if name == VersionCookieName(cfg) {
      assert EntryAdmits(cfg, categories, list[n + 2], name);
    }
  }

  /** Under method 'categories' an entry "cat:pattern" admits a cookie the
      pattern matches exactly when cat is selected. */
  lemma CategoryEntry(cfg: Config, categories: seq<string>, cat: string, pattern: string, name: string)
    requires cfg.consentMethod == Categories
    requires ':' !in cat && SafePattern(cat + ":" + pattern)
    requires !CookieMatches(name, cat + ":" + pattern)
    ensures SafePattern(pattern)
    ensures EntryAdmits(cfg, categories, cat + ":" + pattern, name) <==>
      CookieMatches(name, pattern) && cat in categories
  {
    var e := cat + ":" + pattern;
    assert OccursAt(e, ":", |cat|) by { assert e[|cat|..|cat| + 1] == ":"; }
    forall j | 0 <= j < |cat| ensures !OccursAt(e, ":", j) {
      assert e[j..j + 1] == [cat[j]];
    }
    assert Find(e, ":") == Some(|cat|);
    assert e[..|cat|] == cat && e[|cat| + 1..] == pattern;
    SafeSuffix(e, |cat| + 1);
  }

  /** Outside method 'categories' a cookie is allowed only by the session rule
      or by an entry that matches its name directly. */
  lemma DirectOnly(cfg: Config, categories: seq<string>, name: string)
    requires ConfigOk(cfg) && cfg.consentMethod != Categories
    ensures Allowed(cfg, categories, name) <==>
      StartsWith(name, "SESS") || StartsWith(name, "SSESS")
      || exists i :: 0 <= i < |AllowList(cfg)| && CookieMatches(name, AllowList(cfg)[i])
  {
    if exists i :: 0 <= i < |AllowList(cfg)| && CookieMatches(name, AllowList(cfg)[i]) {
      var i :| 0 <= i < |AllowList(cfg)| && CookieMatches(name, AllowList(cfg)[i]);
      assert EntryAdmits(cfg, categories, AllowList(cfg)[i], name);
    }
  }

  // ---- the domain walk of the sweep ----

  /** The hostname after its first label: '' when it has no '.'. */
  function ParentDomain(h: string): (r: string)
    ensures h != [] ==> |r| < |h|
  {
    match Find(h, ".")
    case None => ""
    case Some(i) => h[i + 1..]
  }

  /** The hostnames the sweep tries, from the full host to the last label. */
  function DomainChain(h: string): (chain: seq<string>)
    decreases |h|
    ensures forall i :: 0 <= i < |chain| ==> chain[i] != ""
  {
    if h == "" then [] else [h] + DomainChain(ParentDomain(h))
  }

  /** Each hostname of the walk is strictly shorter than the one before, so
      the walk ends. */
  lemma {:induction false} DomainChainShrinks(h: string)
    ensures forall i :: 0 < i < |DomainChain(h)| ==> |DomainChain(h)[i]| < |DomainChain(h)[i - 1]|
    ensures |DomainChain(h)| <= |h|
    decreases |h|
  {
    if h != "" {
      var p := ParentDomain(h);
      DomainChainShrinks(p);
      var c := DomainChain(h);
      assert c[1..] == DomainChain(p);
      forall i | 0 < i < |c| ensures |c[i]| < |c[i - 1]| {
        if i == 1 {
          assert c[1] == DomainChain(p)[0];
        } else {
          assert c[i] == DomainChain(p)[i - 1] && c[i - 1] == DomainChain(p)[i - 2];
        }
      }
    }
  }

  /** Whether $.removeCookie confirmed the removal somewhere on the walk:
      first at "." + hostname, then at the hostname itself. */
  function RemovalConfirmed(name: string, h: string, remove: (string, string) -> bool): bool
    decreases |h|
  {
    if h == "" then false
    else remove(name, "." + h) || remove(name, h) || RemovalConfirmed(name, ParentDomain(h), remove)
  }

  /** The removal attempts in the order they are made, up to the first success. */
  function RemovalTrace(name: string, h: string, remove: (string, string) -> bool): seq<Effect>
    decreases |h|
  {
    if h == "" then []
    else if remove(name, "." + h) then [RemovalAttempt(name, "." + h)]
    else if remove(name, h) then [RemovalAttempt(name, "." + h), RemovalAttempt(name, h)]
    else [RemovalAttempt(name, "." + h), RemovalAttempt(name, h)] + RemovalTrace(name, ParentDomain(h), remove)
  }

  /** Removal is confirmed exactly when one of the two domains of some
      hostname of the walk confirms it. */
  lemma {:induction false} RemovalConfirmedMeaning(name: string, h: string, remove: (string, string) -> bool)
    ensures RemovalConfirmed(name, h, remove) <==>
      exists i :: 0 <= i < |DomainChain(h)|
        && (remove(name, "." + DomainChain(h)[i]) || remove(name, DomainChain(h)[i]))
    decreases |h|
  {
    if h != "" {
      var p := ParentDomain(h);
      RemovalConfirmedMeaning(name, p, remove);
      var c := DomainChain(h);
      assert c[0] == h;
      forall i | 0 <= i < |DomainChain(p)| ensures c[i + 1] == DomainChain(p)[i] { }
      if exists i :: 0 <= i < |c| && (remove(name, "." + c[i]) || remove(name, c[i])) {
        var i :| 0 <= i < |c| && (remove(name, "." + c[i]) || remove(name, c[i]));
        if i > 0 { assert DomainChain(p)[i - 1] == c[i]; }
      }
    }
  }

  /** Both removal attempts, "." + hostname then hostname, for every hostname
      of a walk. */
  function AllAttempts(name: string, chain: seq<string>): (r: seq<Effect>)
    decreases |chain|
    ensures |r| == 2 * |chain|
  {
    if chain == [] then []
    else [RemovalAttempt(name, "." + chain[0]), RemovalAttempt(name, chain[0])] + AllAttempts(name, chain[1..])
  }

  /** The attempts for the k-th hostname sit at positions 2k and 2k + 1. */
  lemma {:induction false} AllAttemptsIndex(name: string, chain: seq<string>, k: nat)
    requires k < |chain|
    ensures AllAttempts(name, chain)[2 * k] == RemovalAttempt(name, "." + chain[k])
    ensures AllAttempts(name, chain)[2 * k + 1] == RemovalAttempt(name, chain[k])
    decreases k
  {
    if k > 0 {
      AllAttemptsIndex(name, chain[1..], k - 1);
      assert chain[1..][k - 1] == chain[k];
    }
  }

  /** A walk that never confirms a removal makes every attempt of the chain. */
  lemma {:induction false} UnconfirmedTrace(name: string, h: string, remove: (string, string) -> bool)
    requires !RemovalConfirmed(name, h, remove)
    ensures RemovalTrace(name, h, remove) == AllAttempts(name, DomainChain(h))
    decreases |h|
  {
    if h != "" {
      var p := ParentDomain(h);
      UnconfirmedTrace(name, p, remove);
      assert DomainChain(h)[1..] == DomainChain(p);
    }
  }

  /** When removal is never confirmed, both domains of every hostname of the
      walk are tried, in order. */
  lemma RemovalTraceMeaning(name: string, h: string, remove: (string, string) -> bool)
    ensures !RemovalConfirmed(name, h, remove) ==> |RemovalTrace(name, h, remove)| == 2 * |DomainChain(h)|
    ensures !RemovalConfirmed(name, h, remove) ==> forall i :: 0 <= i < |DomainChain(h)| ==>
      RemovalTrace(name, h, remove)[2 * i] == RemovalAttempt(name, "." + DomainChain(h)[i])
      && RemovalTrace(name, h, remove)[2 * i + 1] == RemovalAttempt(name, DomainChain(h)[i])
  {
    if !RemovalConfirmed(name, h, remove) {
      UnconfirmedTrace(name, h, remove);
      forall i | 0 <= i < |DomainChain(h)|
        ensures RemovalTrace(name, h, remove)[2 * i] == RemovalAttempt(name, "." + DomainChain(h)[i])
        ensures RemovalTrace(name, h, remove)[2 * i + 1] == RemovalAttempt(name, DomainChain(h)[i])
      {
        AllAttemptsIndex(name, DomainChain(h), i);
      }
    }
  }
}
