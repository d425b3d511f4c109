/** The consent tracker's state and operations: the cached status and
    categories, the cookie jar, the hook queue, the sweep timer and the
    script-loading flags, changed in place by getCurrentStatus,
    getAcceptedCategories, setStatus, setAcceptedCategories, changeStatus, the
    banner actions, execute, the two page-load behaviours and BlockCookies.
    Every method is tied to a function of the old state; the properties are
    lemmas about those functions. */
module Tracker {
  import opened Common
  import opened Decimal
  import opened Json
  import opened Glob
  import opened Observer
  import opened Consent

  /** Everything the tracker's operations read or change. */
  datatype State = State(
    status: Status,
    categories: seq<string>,
    jar: Jar,
    queue: seq<seq<Arg>>,
    trace: seq<Effect>,
    sweep: bool,
    scriptsLoaded: bool,
    loadedCategories: set<string>,
    popupAttached: bool,
    blockingAttached: bool)

  /** A category checkbox of the banner, in document order. */
  datatype Checkbox = Checkbox(value: string, checked: bool)

  // ---- hooks ----

  /** The calls made when the handlers hs run for `event`, each receiving the
      current status and categories. */
  function Hooks(event: string, hs: seq<nat>, status: Status, cats: seq<string>): (r: seq<Effect>)
    decreases |hs|
    ensures |r| == |hs|
  {
    if hs == [] then [] else Hooks(event, hs[..|hs| - 1], status, cats) + [Hook(event, hs[|hs| - 1], status, cats)]
  }

  /** Each handler is called once, in order, with the same status and categories. */
  lemma {:induction false} HooksMeaning(event: string, hs: seq<nat>, status: Status, cats: seq<string>, i: nat)
    requires i < |hs|
    ensures Hooks(event, hs, status, cats)[i] == Hook(event, hs[i], status, cats)
    decreases |hs|
  {
    if i < |hs| - 1 {
      HooksMeaning(event, hs[..|hs| - 1], status, cats, i);
    }
  }

  /** Running two lists of handlers one after the other. */
  lemma {:induction false} HooksAppend(event: string, a: seq<nat>, b: seq<nat>, status: Status, cats: seq<string>)
    ensures Hooks(event, a + b, status, cats) == Hooks(event, a, status, cats) + Hooks(event, b, status, cats)
    decreases |b|
  {
    if b == [] {
      assert a + b == a;
    } else {
      var front := b[..|b| - 1];
      assert (a + b)[..|a + b| - 1] == a + front;
      assert (a + b)[|a + b| - 1] == b[|b| - 1];
      HooksAppend(event, a, front, status, cats);
    }
  }

  /** handleEvent(event): every handler registered for it runs once, in queue order. */
  function Fire(st: State, event: string): State {
    st.(trace := st.trace + Hooks(event, Selected(st.queue, event), st.status, st.categories))
  }

  // ---- reading and writing state ----

  /** getCurrentStatus. */
  function LoadStatusSpec(cfg: Config, st: State): State {
    var s1 := Fire(st, "preStatusLoad");
    var s2 := s1.(status := ReadStatus(cfg, s1.jar));
    Fire(s2, "postStatusLoad")
  }

  /** getAcceptedCategories. */
  function LoadCategoriesSpec(cfg: Config, st: State): State
    requires CategoriesCookieReadable(cfg, st.jar)
  {
    var s1 := Fire(st, "prePreferencesLoad");
    var s2 := s1.(categories := MergeRequired(StoredCategories(cfg, s1.jar), cfg.categoryDetails));
    Fire(s2, "postPreferencesLoad")
  }

  /** $.cookie(name, value, ...) with the trimmed path and the configured expiry. */
  function Write(cfg: Config, jar: Jar, name: string, value: string): Jar {
    jar[name := Cookie(value, CookiePath(cfg), cfg.domain, ExpiryFor(cfg))]
  }

  /** setVersion. */
  function SetVersionSpec(cfg: Config, st: State): State {
    st.(jar := Write(cfg, st.jar, VersionCookieName(cfg), cfg.policyVersion))
  }

  /** When setStatus posts the consent record. */
  predicate StoreConsentDue(cfg: Config, s: Status) {
    cfg.storeConsent && ((s == Some(1) && cfg.popupAgreedEnabled) || (s == Some(2) && !cfg.popupAgreedEnabled))
  }

  /** setStatus. */
  function SetStatusSpec(cfg: Config, st: State, s: Status): State {
    var s1 := Fire(StoreStatusSpec(cfg, Fire(st, "preStatusSave"), s), "postStatusSave");
    if s == Some(0) && cfg.consentMethod == OptOut then s1.(sweep := true) else s1
  }

  /** The part of setStatus between its two events: write the status and
      version cookies, record the change, and post the consent record when
      StoreConsentDue says so. */
  function StoreStatusSpec(cfg: Config, st: State, s: Status): State {
    var s1 := st.(jar := Write(cfg, st.jar, StatusCookieName(cfg), StatusText(s)), status := s,
                  trace := st.trace + [StatusChanged(s)]);
    var s2 := SetVersionSpec(cfg, s1);
    if StoreConsentDue(cfg, s) then s2.(trace := s2.trace + [ConsentStored]) else s2
  }

  /** setAcceptedCategories. */
  function SetCategoriesSpec(cfg: Config, st: State, cats: seq<string>): State {
    var s1 := Fire(st, "prePreferencesSave");
    var s2 := s1.(jar := Write(cfg, s1.jar, CategoriesCookieName(cfg), StringifyStrings(cats)), categories := cats,
                  trace := s1.trace + [PreferencesChanged(cats)]);
    Fire(s2, "postPreferencesSave")
  }

  /** changeStatus. */
  function ChangeStatusSpec(cfg: Config, st: State, v: Status): State {
    if st.status == v then st
    else SetStatusSpec(cfg, if cfg.reloadPage then st.(trace := st.trace + [Reload]) else st, v)
  }

  /** loadCategoryScripts, keyed by category name: a category's scripts are
      loaded the first time it is seen with the loader defined. */
  function LoadCategoryScriptsSpec(st: State, cats: seq<string>, loader: bool): State
    decreases |cats|
  {
    if cats == [] then st
    else
      var c := cats[0];
      var s1 := if loader && c !in st.loadedCategories
        then st.(trace := st.trace + [LoadCategoryScripts(c)], loadedCategories := st.loadedCategories + {c})
        else st;
      LoadCategoryScriptsSpec(s1, cats[1..], loader)
  }

  // ---- the banner actions ----

  /** The values of the checked boxes, in document order. */
  function CheckedValues(boxes: seq<Checkbox>): (r: seq<string>)
    decreases |boxes|
  {
    if boxes == [] then []
    else (if boxes[0].checked then [boxes[0].value] else []) + CheckedValues(boxes[1..])
  }

  /** setPreferenceCheckboxes(cats): boxes whose value is listed get checked;
      no box is unchecked. */
  function CheckAll(boxes: seq<Checkbox>, cats: seq<string>): (r: seq<Checkbox>)
    ensures |r| == |boxes|
    ensures forall i :: 0 <= i < |boxes| ==>
      r[i].value == boxes[i].value && r[i].checked == (boxes[i].checked || boxes[i].value in cats)
  {
    seq(|boxes|, i requires 0 <= i < |boxes| =>
      if boxes[i].value in cats then boxes[i].(checked := true) else boxes[i])
  }

  /** The status both consent actions end on when categories were chosen. */
  function NextStatus(cfg: Config): int {
    if cfg.popupAgreedEnabled then 1 else 2
  }

  /** The first step of both actions: without the thank-you banner the
      status is first set to 1. */
  function AgreeFirstSpec(cfg: Config, st: State): State {
    if !cfg.popupAgreedEnabled then SetStatusSpec(cfg, st, Some(1)) else st
  }

  /** Store the chosen categories, load their scripts, then move to status 0
      when none was chosen and to NextStatus otherwise. */
  function ApplyCategoriesSpec(cfg: Config, st: State, cats: seq<string>, loader: bool): State {
    var s1 := LoadCategoryScriptsSpec(SetCategoriesSpec(cfg, st, cats), cats, loader);
    ChangeStatusSpec(cfg, s1, Some(if cats == [] then 0 else NextStatus(cfg)))
  }

  /** The middle of acceptAction: load the blocked scripts unless they were
      loaded already, and stop the sweep. */
  function StopSweepSpec(st: State, loader: bool): State {
    (if !st.scriptsLoaded && loader then st.(trace := st.trace + [LoadScripts]) else st).(sweep := false)
  }

  /** acceptAction. */
  function AcceptSpec(cfg: Config, st: State, boxes: seq<Checkbox>, loader: bool): State {
    var s1 := AgreeFirstSpec(cfg, st);
    var s2 := StopSweepSpec(s1, loader);
    if cfg.consentMethod == Categories then ApplyCategoriesSpec(cfg, s2, CheckedValues(boxes), loader)
    else ChangeStatusSpec(cfg, s2, Some(NextStatus(cfg)))
  }

  /** acceptAllAction: check every configured category, then accept. */
  function AcceptAllSpec(cfg: Config, st: State, boxes: seq<Checkbox>, loader: bool): State {
    AcceptSpec(cfg, st, CheckAll(boxes, cfg.cookieCategories), loader)
  }

  /** savePreferencesAction. */
  function SavePreferencesSpec(cfg: Config, st: State, boxes: seq<Checkbox>, loader: bool): State {
    ApplyCategoriesSpec(cfg, AgreeFirstSpec(cfg, st), CheckedValues(boxes), loader)
  }

  /** withdrawAction. */
  function WithdrawSpec(cfg: Config, st: State): State {
    var s1 := SetCategoriesSpec(cfg, SetStatusSpec(cfg, st, None), []);
    s1.(trace := s1.trace + [Reload])
  }

  /** moreInfoAction. */
  function MoreInfoSpec(cfg: Config, st: State): State {
    if cfg.disagreeDoNotShowPopup then SetStatusSpec(cfg, st, Some(0))
    else st.(trace := st.trace + [OpenPolicyLink])
  }

  // ---- execute and the page-load behaviours ----

  function LegacyCookieName(cfg: Config): string {
    "cookie-agreed-" + cfg.popupLanguage
  }

  /** updateCheck: a status left under the per-language name of an old
      version is copied to the status cookie and the old cookie is removed;
      remove(name, "") is $.removeCookie(name) without options. */
  function UpdateCheckSpec(cfg: Config, st: State, remove: (string, string) -> bool): State {
    var legacy := LegacyCookieName(cfg);
    if legacy in st.jar && st.jar[legacy].value != "null" then
      var copied := st.jar[StatusCookieName(cfg) := Cookie(st.jar[legacy].value, RawPath(cfg), cfg.domain, Days(cfg.lifetime))];
      st.(jar := if remove(legacy, "") then copied - {legacy} else copied)
    else st
  }

  predicate VersionChanged(cfg: Config, jar: Jar) {
    GetVersion(cfg, jar) != Some(cfg.policyVersion)
  }

  /** Whether execute opens the information popup. */
  predicate PopupDue(cfg: Config, status: Status, versionChanged: bool) {
    ((status == Some(0) && cfg.consentMethod == Default) || status.None?
      || (cfg.withdrawEnabled && cfg.withdrawButtonOnInfoPopup) || versionChanged)
    && (cfg.withdrawEnabled || !cfg.disagreeDoNotShowPopup || status.None? || versionChanged)
  }

  /** The popup step of execute: the information popup opens when due,
      closed when a status is stored and the version has not changed. */
  function PopupStep(cfg: Config, st: State): State {
    var changed := VersionChanged(cfg, st.jar);
    if PopupDue(cfg, st.status, changed) then st.(trace := st.trace + [Popup(st.status.Some? && !changed)]) else st
  }

  /** The banner step of execute: the thank-you banner for status 1, the
      withdraw controls for status 2. */
  function BannerStep(cfg: Config, st: State): State {
    if st.status == Some(1) && cfg.popupAgreedEnabled then st.(trace := st.trace + [ThankYouBanner])
    else if st.status == Some(2) && cfg.withdrawEnabled then
      st.(trace := st.trace + [WithdrawControls(!cfg.withdrawButtonOnInfoPopup)])
    else st
  }

  /** execute. */
  function ExecuteSpec(cfg: Config, st: State, cookiesEnabled: bool, remove: (string, string) -> bool): State {
    if !cfg.popupEnabled || !cookiesEnabled then st
    else
      var s1 := if GetVersion(cfg, st.jar).None? then SetVersionSpec(cfg, st) else st;
      BannerStep(cfg, PopupStep(cfg, UpdateCheckSpec(cfg, s1, remove)))
  }

  /** The popup behaviour's attach. The EU check answers with inEu (None when
      no answer arrives); its callback runs after attach has returned. The
      status read for the status class runs on every attach. */
  function AttachSpec(cfg: Config, st: State, inEu: Option<bool>, cookiesEnabled: bool,
                      remove: (string, string) -> bool): State
    requires CategoriesCookieReadable(cfg, st.jar)
  {
    if st.popupAttached then LoadStatusSpec(cfg, st)
    else
      var s1 := LoadCategoriesSpec(cfg, LoadStatusSpec(cfg, st.(popupAttached := true)));
      if cfg.popupEuOnly then EuCheckSpec(cfg, s1, inEu, cookiesEnabled, remove)
      else LoadStatusSpec(cfg, ExecuteSpec(cfg, s1, cookiesEnabled, remove))
  }

  /** The EU-only path of attach: ask for the visitor's location only when
      the banner would show, and on the answer either execute (in the EU) or
      record status 2 (outside it). */
  function EuCheckSpec(cfg: Config, st: State, inEu: Option<bool>, cookiesEnabled: bool,
                       remove: (string, string) -> bool): State
  {
    if ShowBanner(cfg, st.status) then
      var s1 := LoadStatusSpec(cfg, st.(trace := st.trace + [EuCheckRequested]));
      if inEu == Some(true) then ExecuteSpec(cfg, s1, cookiesEnabled, remove)
      else if inEu == Some(false) then SetStatusSpec(cfg, s1, Some(2))
      else s1
    else LoadStatusSpec(cfg, st)
  }

  /** Whether the blocking behaviour starts the sweep. */
  predicate SweepDue(cfg: Config, st: State) {
    cfg.automaticCookiesRemoval &&
    ((cfg.consentMethod == OptIn && (st.status.None? || !HasAgreed(st.status, st.categories, None)))
     || (cfg.consentMethod == OptOut && !HasAgreed(st.status, st.categories, None) && st.status.Some?)
     || cfg.consentMethod == Categories)
  }

  /** The blocking behaviour's attach: once per page. */
  function AttachBlockingSpec(cfg: Config, st: State): State {
    if st.blockingAttached then st
    else
      var s1 := st.(blockingAttached := true);
      if SweepDue(cfg, s1) then s1.(sweep := true) else s1
  }

  /** Whether the document-ready handler loads the blocked scripts. */
  predicate ScriptsDue(cfg: Config, st: State) {
    HasAgreed(st.status, st.categories, None)
    || (st.status.None? && cfg.consentMethod != OptIn && cfg.consentMethod != Categories)
  }

  /** The document-ready handler. */
  function OnReadySpec(cfg: Config, st: State, loader: bool): State {
    if ScriptsDue(cfg, st) then
      var s1 := (if loader then st.(trace := st.trace + [LoadScripts]) else st).(scriptsLoaded := true);
      if cfg.consentMethod == Categories then LoadCategoryScriptsSpec(s1, s1.categories, loader) else s1
    else st
  }

  // ---- the cookie sweep ----

  /** One cookie of BlockCookies: a disallowed cookie is removed along the
      domain walk, and expired directly when no removal was confirmed. */
  function SweepOne(cfg: Config, st: State, name: string, host: string, remove: (string, string) -> bool): State
    requires ConfigOk(cfg)
  {
    if Allowed(cfg, st.categories, name) then st
    else
      var ok := RemovalConfirmed(name, host, remove);
      st.(trace := st.trace + RemovalTrace(name, host, remove) + (if ok then [] else [ExpiryWrite(name)]),
          jar := if ok then st.jar - {name} else st.jar)
  }

  /** BlockCookies over the cookies in the order $.cookie() lists them. */
  function SweepSpec(cfg: Config, st: State, order: seq<string>, host: string, remove: (string, string) -> bool): State
    requires ConfigOk(cfg)
    decreases |order|
  {
    if order == [] then st
    else SweepSpec(cfg, SweepOne(cfg, st, order[0], host, remove), order[1..], host, remove)
  }

  /** $.cookie() lists every cookie of the jar once. */
  ghost predicate Enumerates(order: seq<string>, jar: Jar) {
    NoDuplicates(order) && jar.Keys == set n | n in order
  }

  // ---- the tracker object ----

  class ConsentTracker {
    const cfg: Config
    var status: Status
    var categories: seq<string>
    var jar: Jar
    var queue: seq<seq<Arg>>
    var trace: seq<Effect>
    var sweep: bool
    var scriptsLoaded: bool
    var loadedCategories: set<string>
    var popupAttached: bool
    var blockingAttached: bool

    function Abs(): State
      reads this
    {
      State(status, categories, jar, queue, trace, sweep, scriptsLoaded, loadedCategories,
            popupAttached, blockingAttached)
    }

    /** The module's start: no status, no categories, nothing queued. */
    constructor (cfg: Config, jar: Jar)
      ensures this.cfg == cfg
      ensures Abs() == State(None, [], jar, [], [], false, false, {}, false, false)
    {
      this.cfg := cfg;
      status, categories, this.jar, queue, trace := None, [], jar, [], [];
      sweep, scriptsLoaded, loadedCategories, popupAttached, blockingAttached := false, false, {}, false, false;
    }

    /** Drupal.eu_cookie_compliance(...args): queue the argument list. */
    method Register(item: seq<Arg>)
      modifies this
      ensures Abs() == old(Abs()).(queue := old(queue) + [item])
    {
      queue := queue + [item];
    }

    method UpdateCurrentStatus(s: Status)
      modifies this
      ensures Abs() == old(Abs()).(status := s)
    {
      status := s;
    }

    method UpdateSelectedCategories(cats: seq<string>)
      modifies this
      ensures Abs() == old(Abs()).(categories := cats)
    {
      categories := cats;
    }

    /** handleEvent: filterQueue, then one fresh observer through which each
        handler is subscribed, fired and unsubscribed in turn. */
    method HandleEvent(event: string)
      modifies this
      ensures Abs() == Fire(old(Abs()), event)
    {
      var handlers := FilterQueue(queue, event);
      var observer := new EventObserver();
      var i := 0;
      while i < |handlers|
        invariant 0 <= i <= |handlers|
        invariant observer.handlers == []
        invariant Abs().(trace := []) == old(Abs()).(trace := [])
        invariant trace == old(trace) + Hooks(event, handlers[..i], status, categories)
      {
        RunHandler(observer, event, handlers[i]);
        assert handlers[..i + 1][..i] == handlers[..i];
        AppendAssoc(old(trace), Hooks(event, handlers[..i], status, categories), [Hook(event, handlers[i], status, categories)]);
        i := i + 1;
      }
      assert handlers[..i] == handlers;
    }

    /** One handler of handleEvent: subscribed to the observer, fired with the
        current status and categories, and unsubscribed again. */
    method RunHandler(observer: EventObserver, event: string, h: nat)
      requires observer.handlers == []
      modifies this, observer
      ensures observer.handlers == []
      ensures Abs().(trace := []) == old(Abs()).(trace := [])
      ensures trace == old(trace) + [Hook(event, h, status, categories)]
    {
      observer.Subscribe(h);
      var called := observer.Fire();
      assert called == [h];
      trace := trace + Hooks(event, called, status, categories);
      observer.Unsubscribe(h);
    }

    method GetCurrentStatus() returns (s: Status)
      modifies this
      ensures Abs() == LoadStatusSpec(cfg, old(Abs()))
      ensures s == status
    {
      HandleEvent("preStatusLoad");
      var name := StatusCookieName(cfg);
      status := if name in jar then ParseInt(jar[name].value) else None;
      HandleEvent("postStatusLoad");
      s := status;
    }

    /** getAcceptedCategories: decode the stored list, then push each required
        category that is missing. */
    method GetAcceptedCategories() returns (cats: seq<string>)
      requires CategoriesCookieReadable(cfg, jar)
      modifies this
      ensures Abs() == LoadCategoriesSpec(cfg, old(Abs()))
      ensures cats == categories
    {
      HandleEvent("prePreferencesLoad");
      var name := CategoriesCookieName(cfg);
      var list := if name in jar then ParseStrings(jar[name].value).value else [];
      ghost var stored := list;
      var details := cfg.categoryDetails;
      var i := 0;
      while i < |details|
        invariant 0 <= i <= |details|
        invariant MergeRequired(list, details[i..]) == MergeRequired(stored, details)
      {
        var d := details[i];
        assert details[i..][1..] == details[i + 1..];
        if d.defaultState == "required" && d.machineName !in list {
          list := list + [d.machineName];
        }
        i := i + 1;
      }
      categories := list;
      HandleEvent("postPreferencesLoad");
      cats := categories;
    }

    method SetVersion()
      modifies this
      ensures Abs() == SetVersionSpec(cfg, old(Abs()))
    {
      jar := Write(cfg, jar, VersionCookieName(cfg), cfg.policyVersion);
    }

    method SetStatus(s: Status)
      modifies this
      ensures Abs() == SetStatusSpec(cfg, old(Abs()), s)
    {
      HandleEvent("preStatusSave");
      StoreStatus(s);
      HandleEvent("postStatusSave");
      if s == Some(0) && cfg.consentMethod == OptOut {
        sweep := true;
      }
    }

    /** The body of setStatus between its two events. */
    method StoreStatus(s: Status)
      modifies this
      ensures Abs() == StoreStatusSpec(cfg, old(Abs()), s)
    {
      jar := Write(cfg, jar, StatusCookieName(cfg), StatusText(s));
      status := s;
      trace := trace + [StatusChanged(s)];
      SetVersion();
      if StoreConsentDue(cfg, s) {
        trace := trace + [ConsentStored];
      }
    }

    method SetAcceptedCategories(cats: seq<string>)
      modifies this
      ensures Abs() == SetCategoriesSpec(cfg, old(Abs()), cats)
    {
      HandleEvent("prePreferencesSave");
      jar := Write(cfg, jar, CategoriesCookieName(cfg), StringifyStrings(cats));
      categories := cats;
      trace := trace + [PreferencesChanged(cats)];
      HandleEvent("postPreferencesSave");
    }

    method ChangeStatus(v: Status)
      modifies this
      ensures Abs() == ChangeStatusSpec(cfg, old(Abs()), v)
    {
      if status == v {
        return;
      }
      if cfg.reloadPage {
        trace := trace + [Reload];
      }
      SetStatus(v);
    }

    method LoadCategoryScripts(cats: seq<string>, loader: bool)
      modifies this
      ensures Abs() == LoadCategoryScriptsSpec(old(Abs()), cats, loader)
    {
      var i := 0;
      while i < |cats|
        invariant 0 <= i <= |cats|
        invariant LoadCategoryScriptsSpec(Abs(), cats[i..], loader) == LoadCategoryScriptsSpec(old(Abs()), cats, loader)
      {
        assert cats[i..][1..] == cats[i + 1..];
        var c := cats[i];
        if loader && c !in loadedCategories {
          trace := trace + [Effect.LoadCategoryScripts(c)];
          loadedCategories := loadedCategories + {c};
        }
        i := i + 1;
      }
    }

    method AgreeFirst()
      modifies this
      ensures Abs() == AgreeFirstSpec(cfg, old(Abs()))
    {
      if !cfg.popupAgreedEnabled {
        SetStatus(Some(1));
      }
    }

    method ApplyCategories(cats: seq<string>, loader: bool)
      modifies this
      ensures Abs() == ApplyCategoriesSpec(cfg, old(Abs()), cats, loader)
    {
      SetAcceptedCategories(cats);
      LoadCategoryScripts(cats, loader);
      ChangeStatus(Some(if cats == [] then 0 else NextStatus(cfg)));
    }

    method Accept(boxes: seq<Checkbox>, loader: bool)
      modifies this
      ensures Abs() == AcceptSpec(cfg, old(Abs()), boxes, loader)
    {
      AgreeFirst();
      StopSweep(loader);
      if cfg.consentMethod == Categories {
        ApplyCategories(CheckedValues(boxes), loader);
      } else {
        ChangeStatus(Some(NextStatus(cfg)));
      }
    }

    method StopSweep(loader: bool)
      modifies this
      ensures Abs() == StopSweepSpec(old(Abs()), loader)
    {
      if !scriptsLoaded && loader {
        trace := trace + [LoadScripts];
      }
      sweep := false;
    }

    method AcceptAll(boxes: seq<Checkbox>, loader: bool)
      modifies this
      ensures Abs() == AcceptAllSpec(cfg, old(Abs()), boxes, loader)
    {
      Accept(CheckAll(boxes, cfg.cookieCategories), loader);
    }

    method SavePreferences(boxes: seq<Checkbox>, loader: bool)
      modifies this
      ensures Abs() == SavePreferencesSpec(cfg, old(Abs()), boxes, loader)
    {
      AgreeFirst();
      ApplyCategories(CheckedValues(boxes), loader);
    }

    method Decline()
      modifies this
      ensures Abs() == SetStatusSpec(cfg, old(Abs()), Some(0))
    {
      SetStatus(Some(0));
    }

    method Withdraw()
      modifies this
      ensures Abs() == WithdrawSpec(cfg, old(Abs()))
    {
      SetStatus(None);
      SetAcceptedCategories([]);
      trace := trace + [Reload];
    }

    method MoreInfo()
      modifies this
      ensures Abs() == MoreInfoSpec(cfg, old(Abs()))
    {
      if cfg.disagreeDoNotShowPopup {
        SetStatus(Some(0));
      } else {
        trace := trace + [OpenPolicyLink];
      }
    }

    method UpdateCheck(remove: (string, string) -> bool)
      modifies this
      ensures Abs() == UpdateCheckSpec(cfg, old(Abs()), remove)
    {
      var legacy := LegacyCookieName(cfg);
      if legacy in jar && jar[legacy].value != "null" {
        jar := jar[StatusCookieName(cfg) := Cookie(jar[legacy].value, RawPath(cfg), cfg.domain, Days(cfg.lifetime))];
        if remove(legacy, "") {
          jar := jar - {legacy};
        }
      }
    }

    method Execute(cookiesEnabled: bool, remove: (string, string) -> bool)
      modifies this
      ensures Abs() == ExecuteSpec(cfg, old(Abs()), cookiesEnabled, remove)
    {
      if !cfg.popupEnabled || !cookiesEnabled {
        return;
      }
      if GetVersion(cfg, jar).None? {
        SetVersion();
      }
      UpdateCheck(remove);
      ShowPopup();
      ShowBanners();
    }

    method ShowPopup()
      modifies this
      ensures Abs() == PopupStep(cfg, old(Abs()))
    {
      var changed := VersionChanged(cfg, jar);
      var closed := status.Some? && !changed;
      if PopupDue(cfg, status, changed) {
        trace := trace + [Popup(closed)];
      }
    }

    method ShowBanners()
      modifies this
      ensures Abs() == BannerStep(cfg, old(Abs()))
    {
      if status == Some(1) && cfg.popupAgreedEnabled {
        trace := trace + [ThankYouBanner];
      } else if status == Some(2) && cfg.withdrawEnabled {
        trace := trace + [WithdrawControls(!cfg.withdrawButtonOnInfoPopup)];
      }
    }

    method Attach(inEu: Option<bool>, cookiesEnabled: bool, remove: (string, string) -> bool)
      requires CategoriesCookieReadable(cfg, jar)
      modifies this
      ensures Abs() == AttachSpec(cfg, old(Abs()), inEu, cookiesEnabled, remove)
    {
      if popupAttached {
        var _ := GetCurrentStatus();
        return;
      }
      popupAttached := true;
      var _ := GetCurrentStatus();
      var _ := GetAcceptedCategories();
      if cfg.popupEuOnly {
        EuCheck(inEu, cookiesEnabled, remove);
      } else {
        Execute(cookiesEnabled, remove);
        var _ := GetCurrentStatus();
      }
    }

    method EuCheck(inEu: Option<bool>, cookiesEnabled: bool, remove: (string, string) -> bool)
      modifies this
      ensures Abs() == EuCheckSpec(cfg, old(Abs()), inEu, cookiesEnabled, remove)
    {
      if ShowBanner(cfg, status) {
        trace := trace + [EuCheckRequested];
        var _ := GetCurrentStatus();
        if inEu == Some(true) {
          Execute(cookiesEnabled, remove);
        } else if inEu == Some(false) {
          SetStatus(Some(2));
        }
      } else {
        var _ := GetCurrentStatus();
      }
    }

    method AttachBlocking()
      modifies this
      ensures Abs() == AttachBlockingSpec(cfg, old(Abs()))
    {
      if blockingAttached {
        return;
      }
      blockingAttached := true;
      if SweepDue(cfg, Abs()) {
        sweep := true;
      }
    }

    method OnReady(loader: bool)
      modifies this
      ensures Abs() == OnReadySpec(cfg, old(Abs()), loader)
    {
      if ScriptsDue(cfg, Abs()) {
        if loader {
          trace := trace + [LoadScripts];
        }
        scriptsLoaded := true;
        if cfg.consentMethod == Categories {
          LoadCategoryScripts(categories, loader);
        }
      }
    }

    /** BlockCookies: each cookie that is not allowed is removed along the
        domain walk of `host`, or expired directly when no removal was
        confirmed. */
    method BlockCookies(order: seq<string>, host: string, remove: (string, string) -> bool)
      requires ConfigOk(cfg) && Enumerates(order, jar)
      modifies this
      ensures Abs() == SweepSpec(cfg, old(Abs()), order, host, remove)
    {
      var i := 0;
      while i < |order|
        invariant 0 <= i <= |order|
        invariant SweepSpec(cfg, Abs(), order[i..], host, remove) == SweepSpec(cfg, old(Abs()), order, host, remove)
      {
        assert order[i..][1..] == order[i + 1..];
        SweepCookie(order[i], host, remove);
        i := i + 1;
      }
    }

    method SweepCookie(name: string, host: string, remove: (string, string) -> bool)
      requires ConfigOk(cfg)
      modifies this
      ensures Abs() == SweepOne(cfg, old(Abs()), name, host, remove)
    {
      var allowed := IsAllowed(cfg, categories, name);
      if !allowed {
        var removed, attempts := RemoveAlongDomains(name, host, remove);
        trace := trace + attempts;
        if removed {
          jar := jar - {name};
        } else {
          trace := trace + [ExpiryWrite(name)];
        }
      }
    }
  }

  /** The while loop of BlockCookies: try the domain ".h" and then "h" for
      each hostname h of the walk, stopping at the first confirmed removal. */
  method RemoveAlongDomains(name: string, host: string, remove: (string, string) -> bool)
    returns (removed: bool, attempts: seq<Effect>)
    ensures removed == RemovalConfirmed(name, host, remove)
    ensures attempts == RemovalTrace(name, host, remove)
  {
    var hostname := host;
    removed := false;
    attempts := [];
    while !removed && hostname != ""
      invariant attempts + (if removed then [] else RemovalTrace(name, hostname, remove)) == RemovalTrace(name, host, remove)
      invariant (removed || RemovalConfirmed(name, hostname, remove)) == RemovalConfirmed(name, host, remove)
      decreases |hostname|
    {
      ghost var before := attempts;
      RemovalStep(name, hostname, remove, before);
      assert (remove(name, "." + hostname) || remove(name, hostname) || RemovalConfirmed(name, ParentDomain(hostname), remove))
        == RemovalConfirmed(name, hostname, remove);
      removed := remove(name, "." + hostname);
      attempts := attempts + [RemovalAttempt(name, "." + hostname)];
      if !removed {
        removed := remove(name, hostname);
        attempts := attempts + [RemovalAttempt(name, hostname)];
        assert attempts == before + [RemovalAttempt(name, "." + hostname), RemovalAttempt(name, hostname)];
      }
      hostname := ParentDomain(hostname);
    }
  }

  /** One turn of the domain walk: the attempts it makes, followed by those
      still to come, are the attempts of the whole walk. */
  lemma RemovalStep(name: string, h: string, remove: (string, string) -> bool, before: seq<Effect>)
    requires h != ""
    ensures var first := remove(name, "." + h);
      var made := if first then [RemovalAttempt(name, "." + h)] else [RemovalAttempt(name, "." + h), RemovalAttempt(name, h)];
      var removed := first || remove(name, h);
      before + made + (if removed then [] else RemovalTrace(name, ParentDomain(h), remove))
        == before + RemovalTrace(name, h, remove)
  {
    var first := remove(name, "." + h);
    var made := if first then [RemovalAttempt(name, "." + h)] else [RemovalAttempt(name, "." + h), RemovalAttempt(name, h)];
    var removed := first || remove(name, h);
    var rest := if removed then [] else RemovalTrace(name, ParentDomain(h), remove);
    assert made + rest == RemovalTrace(name, h, remove);
    AppendAssoc(before, made, rest);
  }
}
