/** What the tracker's operations promise, stated over the functions its
    methods are proved against. */
module TrackerProperties {
  import opened Common
  import opened Decimal
  import opened Json
  import opened Consent
  import opened Tracker

  // ---- reading back what was written ----

  /** A status stored by setStatus is what getCurrentStatus reads next, as
      long as the status and version cookies have different names. */
  lemma LoadStatusAfterSetStatus(cfg: Config, st: State, s: Status)
    requires StatusCookieName(cfg) != VersionCookieName(cfg)
    ensures ReadStatus(cfg, SetStatusSpec(cfg, st, s).jar) == s
    ensures LoadStatusSpec(cfg, SetStatusSpec(cfg, st, s)).status == s
  {
    SetStatusWrites(cfg, st, s);
    LoadStatusFrame(cfg, SetStatusSpec(cfg, st, s));
    StatusTextRoundTrip(s);
  }

  /** setStatus records the current policy version, so a later execute sees
      no version change. */
  lemma SetStatusRecordsVersion(cfg: Config, st: State, s: Status)
    ensures GetVersion(cfg, SetStatusSpec(cfg, st, s).jar) == Some(cfg.policyVersion)
    ensures !VersionChanged(cfg, SetStatusSpec(cfg, st, s).jar)
  {
  }

  /** Categories stored by setAcceptedCategories decode back to the same
      list, and getAcceptedCategories then adds the required ones. */
  lemma LoadCategoriesAfterSetCategories(cfg: Config, st: State, cats: seq<string>)
    ensures CategoriesCookieReadable(cfg, SetCategoriesSpec(cfg, st, cats).jar)
    ensures StoredCategories(cfg, SetCategoriesSpec(cfg, st, cats).jar) == cats
    ensures LoadCategoriesSpec(cfg, SetCategoriesSpec(cfg, st, cats)).categories
         == MergeRequired(cats, cfg.categoryDetails)
  {
    ParseStringifyStrings(cats);
  }

  // ---- the script loader ----

  /** The categories loadCategoryScripts(cats) loads, in order, when
      `loaded` have been loaded before. */
  function NewLoads(loaded: set<string>, cats: seq<string>, loader: bool): seq<string>
    decreases |cats|
  {
    if cats == [] || !loader then []
    else if cats[0] in loaded then NewLoads(loaded, cats[1..], loader)
    else [cats[0]] + NewLoads(loaded + {cats[0]}, cats[1..], loader)
  }

  function LoaderCalls(cs: seq<string>): (r: seq<Effect>)
    ensures |r| == |cs| && forall i :: 0 <= i < |cs| ==> r[i] == LoadCategoryScripts(cs[i])
  {
    seq(|cs|, i requires 0 <= i < |cs| => LoadCategoryScripts(cs[i]))
  }

  function SetOf(cats: seq<string>): set<string> {
    set c | c in cats
  }

  /** loadCategoryScripts appends the loader calls for NewLoads, records
      every listed category as loaded when the loader exists, and changes
      nothing else. */
  lemma {:induction false} LoadCategoryScriptsShape(st: State, cats: seq<string>, loader: bool)
    ensures LoadCategoryScriptsSpec(st, cats, loader)
         == st.(trace := st.trace + LoaderCalls(NewLoads(st.loadedCategories, cats, loader)),
                loadedCategories := st.loadedCategories + (if loader then SetOf(cats) else {}))
    decreases |cats|
  {
    if cats != [] {
      var c := cats[0];
      var added := if loader then SetOf(cats) else {};
      var addedRest := if loader then SetOf(cats[1..]) else {};
      assert SetOf(cats) == {c} + SetOf(cats[1..]) by {
        assert forall x :: x in cats <==> x == c || x in cats[1..] by {
          assert cats == [c] + cats[1..];
        }
      }
      if loader && c !in st.loadedCategories {
        var s1 := st.(trace := st.trace + [LoadCategoryScripts(c)], loadedCategories := st.loadedCategories + {c});
        assert LoadCategoryScriptsSpec(st, cats, loader) == LoadCategoryScriptsSpec(s1, cats[1..], loader);
        LoadCategoryScriptsShape(s1, cats[1..], loader);
        var rest := NewLoads(s1.loadedCategories, cats[1..], loader);
        assert NewLoads(st.loadedCategories, cats, loader) == [c] + rest;
        assert LoaderCalls([c] + rest) == [LoadCategoryScripts(c)] + LoaderCalls(rest);
        AppendAssoc(st.trace, [LoadCategoryScripts(c)], LoaderCalls(rest));
        assert s1.loadedCategories + addedRest == st.loadedCategories + added;
      } else {
        assert LoadCategoryScriptsSpec(st, cats, loader) == LoadCategoryScriptsSpec(st, cats[1..], loader);
        LoadCategoryScriptsShape(st, cats[1..], loader);
        assert NewLoads(st.loadedCategories, cats, loader) == NewLoads(st.loadedCategories, cats[1..], loader);
        assert st.loadedCategories + addedRest == st.loadedCategories + added;
      }
    }
  }

  /** Each category of `cats` not loaded before is loaded exactly once when
      the loader exists, and nothing else is loaded. */
  lemma {:induction false} NewLoadsMeaning(loaded: set<string>, cats: seq<string>, loader: bool)
    ensures forall c :: c in NewLoads(loaded, cats, loader) <==> loader && c in cats && c !in loaded
    ensures NoDuplicates(NewLoads(loaded, cats, loader))
    decreases |cats|
  {
    if cats != [] && loader {
      var c := cats[0];
      assert forall x :: x in cats <==> x == c || x in cats[1..] by {
        assert cats == [c] + cats[1..];
      }
      if c in loaded {
        NewLoadsMeaning(loaded, cats[1..], loader);
      } else {
        NewLoadsMeaning(loaded + {c}, cats[1..], loader);
        var rest := NewLoads(loaded + {c}, cats[1..], loader);
        var all := [c] + rest;
        forall i, j | 0 <= i < j < |all| ensures all[i] != all[j] {
          if i == 0 { assert all[j] == rest[j - 1] && all[j] in rest; }
          else { assert all[i] == rest[i - 1] && all[j] == rest[j - 1]; }
        }
      }
    }
  }

  // ---- what each step leaves alone ----

  /** setStatus changes the jar, the trace, the status and possibly starts
      the sweep; nothing else. */
  lemma SetStatusFrame(cfg: Config, st: State, s: Status)
    ensures var r := SetStatusSpec(cfg, st, s);
      r == st.(jar := r.jar, trace := r.trace, status := s,
               sweep := st.sweep || (s == Some(0) && cfg.consentMethod == OptOut))
  {
    StoreStatusFrame(cfg, Fire(st, "preStatusSave"), s);
  }

  /** The middle of setStatus writes the status and version cookies and
      sets the status; otherwise it only adds to the trace. */
  lemma StoreStatusFrame(cfg: Config, st: State, s: Status)
    ensures var r := StoreStatusSpec(cfg, st, s);
      r == st.(jar := Write(cfg, Write(cfg, st.jar, StatusCookieName(cfg), StatusText(s)), VersionCookieName(cfg), cfg.policyVersion),
               status := s, trace := r.trace)
  {
  }

  /** setAcceptedCategories changes the jar, the trace and the categories. */
  lemma SetCategoriesFrame(cfg: Config, st: State, cats: seq<string>)
    ensures var r := SetCategoriesSpec(cfg, st, cats);
      r == st.(jar := r.jar, trace := r.trace, categories := cats)
      && r.jar == Write(cfg, st.jar, CategoriesCookieName(cfg), StringifyStrings(cats))
  {
  }

  /** The cookies setStatus writes: the status, then the policy version. */
  lemma SetStatusWrites(cfg: Config, st: State, s: Status)
    ensures SetStatusSpec(cfg, st, s).jar
      == Write(cfg, Write(cfg, st.jar, StatusCookieName(cfg), StatusText(s)), VersionCookieName(cfg), cfg.policyVersion)
  {
    StoreStatusFrame(cfg, Fire(st, "preStatusSave"), s);
  }

  /** The cookie steps of execute change only the jar. */
  lemma ExecuteFrame(cfg: Config, st: State, remove: (string, string) -> bool)
    ensures var s1 := if GetVersion(cfg, st.jar).None? then SetVersionSpec(cfg, st) else st;
      UpdateCheckSpec(cfg, s1, remove) == st.(jar := UpdateCheckSpec(cfg, s1, remove).jar)
  {
  }

  /** getCurrentStatus sets the status from the jar and adds hook calls; nothing else. */
  lemma LoadStatusFrame(cfg: Config, st: State)
    ensures var r := LoadStatusSpec(cfg, st);
      r == st.(status := ReadStatus(cfg, st.jar), trace := r.trace)
  {
  }

  /** getAcceptedCategories sets the categories from the jar and adds hook calls. */
  lemma LoadCategoriesFrame(cfg: Config, st: State)
    requires CategoriesCookieReadable(cfg, st.jar)
    ensures var r := LoadCategoriesSpec(cfg, st);
      r == st.(categories := MergeRequired(StoredCategories(cfg, st.jar), cfg.categoryDetails), trace := r.trace)
  {
  }

  /** The popup and banner steps of execute add to the trace only. */
  lemma ShowStepsFrame(cfg: Config, st: State)
    ensures PopupStep(cfg, st) == st.(trace := PopupStep(cfg, st).trace)
    ensures BannerStep(cfg, st) == st.(trace := BannerStep(cfg, st).trace)
  {
  }

  /** execute changes only the jar and the trace. */
  lemma ExecuteKeeps(cfg: Config, st: State, cookiesEnabled: bool, remove: (string, string) -> bool)
    ensures var r := ExecuteSpec(cfg, st, cookiesEnabled, remove);
      r == st.(jar := r.jar, trace := r.trace)
  {
    if cfg.popupEnabled && cookiesEnabled {
      ExecuteFrame(cfg, st, remove);
      var s1 := if GetVersion(cfg, st.jar).None? then SetVersionSpec(cfg, st) else st;
      var s2 := UpdateCheckSpec(cfg, s1, remove);
      ShowStepsFrame(cfg, s2);
      ShowStepsFrame(cfg, PopupStep(cfg, s2));
    }
  }

  /** changeStatus ends on the requested status, keeps the categories, and
      starts the sweep only for a move to 0 under opt-out. */
  lemma ChangeStatusFacts(cfg: Config, st: State, v: Status)
    ensures ChangeStatusSpec(cfg, st, v).status == v
    ensures ChangeStatusSpec(cfg, st, v).categories == st.categories
    ensures ChangeStatusSpec(cfg, st, v).sweep == (st.sweep || (st.status != v && v == Some(0) && cfg.consentMethod == OptOut))
  {
    if st.status != v {
      var s0 := if cfg.reloadPage then st.(trace := st.trace + [Reload]) else st;
      SetStatusFrame(cfg, s0, v);
    }
  }

  /** The shared tail of both consent actions stores the categories and
      ends on 0 or NextStatus; it starts the sweep only for an empty choice. */
  lemma ApplyCategoriesFacts(cfg: Config, st: State, cats: seq<string>, loader: bool)
    ensures ApplyCategoriesSpec(cfg, st, cats, loader).categories == cats
    ensures ApplyCategoriesSpec(cfg, st, cats, loader).status == Some(if cats == [] then 0 else NextStatus(cfg))
    ensures cats != [] || cfg.consentMethod != OptOut ==> ApplyCategoriesSpec(cfg, st, cats, loader).sweep == st.sweep
  {
    var s1 := SetCategoriesSpec(cfg, st, cats);
    SetCategoriesFrame(cfg, st, cats);
    var s2 := LoadCategoryScriptsSpec(s1, cats, loader);
    LoadCategoryScriptsShape(s1, cats, loader);
    assert s2.categories == cats && s2.sweep == st.sweep;
    ChangeStatusFacts(cfg, s2, Some(if cats == [] then 0 else NextStatus(cfg)));
  }

  // ---- the banner actions ----

  /** changeStatus leaves the tracker alone when the status is unchanged and
      otherwise ends on the requested status. */
  lemma ChangeStatusMeaning(cfg: Config, st: State, v: Status)
    ensures ChangeStatusSpec(cfg, st, v).status == v
    ensures st.status == v ==> ChangeStatusSpec(cfg, st, v) == st
    ensures ChangeStatusSpec(cfg, st, v).categories == st.categories
  {
    if st.status != v {
      SetStatusFrame(cfg, if cfg.reloadPage then st.(trace := st.trace + [Reload]) else st, v);
    }
  }

  /** The agree-first step of both consent actions keeps the categories. */
  lemma AgreeFirstKeeps(cfg: Config, st: State)
    ensures AgreeFirstSpec(cfg, st).categories == st.categories
  {
    if !cfg.popupAgreedEnabled {
      SetStatusFrame(cfg, st, Some(1));
    }
  }

  /** The status an accept ends on: 0 when no category was chosen under the
      categories method, otherwise 1 with the thank-you banner and 2 without. */
  function AcceptTarget(cfg: Config, boxes: seq<Checkbox>): int {
    if cfg.consentMethod == Categories && CheckedValues(boxes) == [] then 0
    else if cfg.popupAgreedEnabled then 1 else 2
  }

  /** acceptAction ends on AcceptTarget, stops the sweep, and under the
      categories method stores exactly the checked categories. */
  lemma AcceptOutcome(cfg: Config, st: State, boxes: seq<Checkbox>, loader: bool)
    ensures AcceptSpec(cfg, st, boxes, loader).status == Some(AcceptTarget(cfg, boxes))
    ensures !AcceptSpec(cfg, st, boxes, loader).sweep
    ensures cfg.consentMethod == Categories ==> AcceptSpec(cfg, st, boxes, loader).categories == CheckedValues(boxes)
    ensures cfg.consentMethod != Categories ==> AcceptSpec(cfg, st, boxes, loader).categories == st.categories
  {
    var s1 := AgreeFirstSpec(cfg, st);
    AgreeFirstKeeps(cfg, st);
    var s2 := StopSweepSpec(s1, loader);
    assert s2.categories == st.categories && !s2.sweep;
    if cfg.consentMethod == Categories {
      ApplyCategoriesFacts(cfg, s2, CheckedValues(boxes), loader);
    } else {
      ChangeStatusFacts(cfg, s2, Some(NextStatus(cfg)));
    }
  }

  /** acceptAllAction checks every configured category before accepting. */
  lemma AcceptAllChecksCategories(cfg: Config, boxes: seq<Checkbox>, i: nat)
    requires i < |boxes| && boxes[i].value in cfg.cookieCategories
    ensures CheckAll(boxes, cfg.cookieCategories)[i].checked
    ensures CheckAll(boxes, cfg.cookieCategories)[i].value == boxes[i].value
  {
  }

  /** savePreferencesAction stores exactly the checked categories and ends on
      status 0 when there are none, 1 or 2 otherwise; with categories chosen
      it never starts the sweep. */
  lemma SavePreferencesOutcome(cfg: Config, st: State, boxes: seq<Checkbox>, loader: bool)
    ensures SavePreferencesSpec(cfg, st, boxes, loader).categories == CheckedValues(boxes)
    ensures SavePreferencesSpec(cfg, st, boxes, loader).status
         == Some(if CheckedValues(boxes) == [] then 0 else NextStatus(cfg))
    ensures CheckedValues(boxes) != [] ==> SavePreferencesSpec(cfg, st, boxes, loader).sweep == st.sweep
  {
    SetStatusFrame(cfg, st, Some(1));
    ApplyCategoriesFacts(cfg, AgreeFirstSpec(cfg, st), CheckedValues(boxes), loader);
  }

  /** declineAction records 0, which never counts as agreement, and starts
      the sweep under the opt-out method. */
  lemma DeclineOutcome(cfg: Config, st: State, c: string)
    ensures SetStatusSpec(cfg, st, Some(0)).status == Some(0)
    ensures !HasAgreed(SetStatusSpec(cfg, st, Some(0)).status, st.categories, Some(c))
    ensures SetStatusSpec(cfg, st, Some(0)).sweep == (st.sweep || cfg.consentMethod == OptOut)
    ensures SetStatusSpec(cfg, st, Some(0)).categories == st.categories
  {
  }

  /** withdrawAction forgets both the status and the categories, so the
      banner shows again after the reload it asks for. */
  lemma WithdrawOutcome(cfg: Config, st: State)
    ensures WithdrawSpec(cfg, st).status.None? && WithdrawSpec(cfg, st).categories == []
    ensures ShowBanner(cfg, WithdrawSpec(cfg, st).status)
    ensures WithdrawSpec(cfg, st).trace[|WithdrawSpec(cfg, st).trace| - 1] == Reload
  {
    var s0 := SetStatusSpec(cfg, st, None);
    SetStatusFrame(cfg, st, None);
    var s1 := SetCategoriesSpec(cfg, s0, []);
    SetCategoriesFrame(cfg, s0, []);
    assert s1.status.None? && s1.categories == [];
  }

  /** After withdrawAction the status cookie reads back as no decision,
      unless its name is shared with the version or categories cookie. */
  lemma WithdrawClearsStatusCookie(cfg: Config, st: State)
    requires StatusCookieName(cfg) != VersionCookieName(cfg) && StatusCookieName(cfg) != CategoriesCookieName(cfg)
    ensures ReadStatus(cfg, WithdrawSpec(cfg, st).jar).None?
  {
    var s0 := SetStatusSpec(cfg, st, None);
    SetStatusWrites(cfg, st, None);
    var s1 := SetCategoriesSpec(cfg, s0, []);
    SetCategoriesFrame(cfg, s0, []);
    var name := StatusCookieName(cfg);
    assert name in s1.jar && s1.jar[name].value == "null";
    assert WithdrawSpec(cfg, st).jar == s1.jar;
    StatusTextRoundTrip(None);
  }

  /** moreInfoAction either records 0 or only opens the policy link. */
  lemma MoreInfoOutcome(cfg: Config, st: State)
    ensures cfg.disagreeDoNotShowPopup ==> MoreInfoSpec(cfg, st).status == Some(0)
    ensures !cfg.disagreeDoNotShowPopup ==> MoreInfoSpec(cfg, st) == st.(trace := st.trace + [OpenPolicyLink])
  {
  }

  // ---- execute ----

  /** Without the popup or without cookies execute does nothing. */
  lemma ExecuteDisabled(cfg: Config, st: State, cookiesEnabled: bool, remove: (string, string) -> bool)
    requires !cfg.popupEnabled || !cookiesEnabled
    ensures ExecuteSpec(cfg, st, cookiesEnabled, remove) == st
  {
  }

  /** A first visit (no status yet) opens the popup, not in its closed form,
      and shows nothing else. */
  lemma ExecuteFirstVisit(cfg: Config, st: State, remove: (string, string) -> bool)
    requires cfg.popupEnabled && st.status.None?
    ensures ExecuteSpec(cfg, st, true, remove).trace == st.trace + [Popup(false)]
    ensures ExecuteSpec(cfg, st, true, remove).status == st.status
  {
    ExecuteFrame(cfg, st, remove);
  }

  /** A visitor who agreed under the current policy version, with withdrawal
      disabled, is shown nothing. */
  lemma ExecuteAgreedCurrentVersion(cfg: Config, st: State, remove: (string, string) -> bool)
    requires cfg.popupEnabled && st.status == Some(2) && !cfg.withdrawEnabled
    requires GetVersion(cfg, st.jar) == Some(cfg.policyVersion)
    requires VersionCookieName(cfg) != StatusCookieName(cfg) && VersionCookieName(cfg) != LegacyCookieName(cfg)
    ensures ExecuteSpec(cfg, st, true, remove).trace == st.trace
  {
    var name := VersionCookieName(cfg);
    ExecuteFrame(cfg, st, remove);
    var s2 := UpdateCheckSpec(cfg, st, remove);
    assert name in s2.jar && s2.jar[name] == st.jar[name];
    assert !VersionChanged(cfg, s2.jar);
    assert !PopupDue(cfg, s2.status, false);
    assert PopupStep(cfg, s2) == s2;
    assert BannerStep(cfg, s2) == s2;
  }

  /** A new policy version reopens the popup in its open form, whatever the
      stored status. */
  lemma ExecuteVersionBump(cfg: Config, st: State, remove: (string, string) -> bool)
    requires cfg.popupEnabled
    requires VersionCookieName(cfg) in st.jar && st.jar[VersionCookieName(cfg)].value != cfg.policyVersion
    requires VersionCookieName(cfg) != StatusCookieName(cfg) && VersionCookieName(cfg) != LegacyCookieName(cfg)
    ensures |ExecuteSpec(cfg, st, true, remove).trace| > |st.trace|
    ensures ExecuteSpec(cfg, st, true, remove).trace[|st.trace|] == Popup(false)
  {
    var name := VersionCookieName(cfg);
    assert GetVersion(cfg, st.jar).Some?;
    ExecuteFrame(cfg, st, remove);
    var s2 := UpdateCheckSpec(cfg, st, remove);
    assert s2.trace == st.trace;
    assert name in s2.jar && s2.jar[name] == st.jar[name];
    assert VersionChanged(cfg, s2.jar);
    assert PopupDue(cfg, s2.status, true);
    var s3 := s2.(trace := s2.trace + [Popup(false)]);
    assert s3.trace[|st.trace|] == Popup(false);
  }

  /** updateCheck moves a status stored under the per-language name of an
      older version to the status cookie. */
  lemma UpdateCheckMigrates(cfg: Config, st: State, remove: (string, string) -> bool)
    requires LegacyCookieName(cfg) in st.jar && st.jar[LegacyCookieName(cfg)].value != "null"
    requires LegacyCookieName(cfg) != StatusCookieName(cfg)
    ensures ReadStatus(cfg, UpdateCheckSpec(cfg, st, remove).jar) == ParseInt(st.jar[LegacyCookieName(cfg)].value)
    ensures LegacyCookieName(cfg) in UpdateCheckSpec(cfg, st, remove).jar <==> !remove(LegacyCookieName(cfg), "")
  {
  }

  // ---- attach ----

  /** The first attach outside the EU-only mode loads the stored categories
      merged with the required ones, and ends with the status re-read from
      the cookies as execute left them. */
  lemma AttachLoads(cfg: Config, st: State, cookiesEnabled: bool, remove: (string, string) -> bool)
    requires CategoriesCookieReadable(cfg, st.jar)
    requires !st.popupAttached && !cfg.popupEuOnly
    ensures var r := AttachSpec(cfg, st, None, cookiesEnabled, remove);
      r.popupAttached
      && r.categories == MergeRequired(StoredCategories(cfg, st.jar), cfg.categoryDetails)
      && r.status == ReadStatus(cfg, r.jar)
  {
    var s0 := st.(popupAttached := true);
    var a := LoadStatusSpec(cfg, s0);
    LoadStatusFrame(cfg, s0);
    var b := LoadCategoriesSpec(cfg, a);
    LoadCategoriesFrame(cfg, a);
    var c := ExecuteSpec(cfg, b, cookiesEnabled, remove);
    ExecuteKeeps(cfg, b, cookiesEnabled, remove);
    var d := LoadStatusSpec(cfg, c);
    LoadStatusFrame(cfg, c);
    assert AttachSpec(cfg, st, None, cookiesEnabled, remove) == d;
  }

  /** A later attach only re-reads the status. */
  lemma AttachAgain(cfg: Config, st: State, inEu: Option<bool>, cookiesEnabled: bool, remove: (string, string) -> bool)
    requires CategoriesCookieReadable(cfg, st.jar) && st.popupAttached
    ensures AttachSpec(cfg, st, inEu, cookiesEnabled, remove).status == ReadStatus(cfg, st.jar)
    ensures AttachSpec(cfg, st, inEu, cookiesEnabled, remove).jar == st.jar
  {
  }

  /** In the EU-only mode a visitor outside the EU for whom the banner would
      show is recorded with status 2. */
  lemma AttachOutsideEu(cfg: Config, st: State, cookiesEnabled: bool, remove: (string, string) -> bool)
    requires CategoriesCookieReadable(cfg, st.jar)
    requires !st.popupAttached && cfg.popupEuOnly && ShowBanner(cfg, ReadStatus(cfg, st.jar))
    requires StatusCookieName(cfg) != VersionCookieName(cfg)
    ensures AttachSpec(cfg, st, Some(false), cookiesEnabled, remove).status == Some(2)
    ensures ReadStatus(cfg, AttachSpec(cfg, st, Some(false), cookiesEnabled, remove).jar) == Some(2)
  {
    var s0 := st.(popupAttached := true);
    var a := LoadStatusSpec(cfg, s0);
    LoadStatusFrame(cfg, s0);
    var b := LoadCategoriesSpec(cfg, a);
    LoadCategoriesFrame(cfg, a);
    assert ShowBanner(cfg, b.status);
    var c := LoadStatusSpec(cfg, b.(trace := b.trace + [EuCheckRequested]));
    LoadStatusFrame(cfg, b.(trace := b.trace + [EuCheckRequested]));
    var d := SetStatusSpec(cfg, c, Some(2));
    assert AttachSpec(cfg, st, Some(false), cookiesEnabled, remove) == d;
    SetStatusFrame(cfg, c, Some(2));
    SetStatusWrites(cfg, c, Some(2));
    StatusTextRoundTrip(Some(2));
  }

  /** The blocking behaviour acts once per page; its first attach starts the
      sweep exactly when SweepDue holds. */
  lemma AttachBlockingOnce(cfg: Config, st: State)
    ensures AttachBlockingSpec(cfg, AttachBlockingSpec(cfg, st)) == AttachBlockingSpec(cfg, st)
    ensures !st.blockingAttached ==> AttachBlockingSpec(cfg, st).sweep == (st.sweep || SweepDue(cfg, st))
  {
  }

  /** Under opt-in nothing is loaded before agreement; when the scripts are
      due, every accepted category is loaded once the loader exists. */
  lemma OnReadyOutcome(cfg: Config, st: State, loader: bool)
    ensures cfg.consentMethod == OptIn && !HasAgreed(st.status, st.categories, None) ==> OnReadySpec(cfg, st, loader) == st
    ensures ScriptsDue(cfg, st) ==> OnReadySpec(cfg, st, loader).scriptsLoaded
    ensures ScriptsDue(cfg, st) && cfg.consentMethod == Categories && loader ==>
      forall c :: c in st.categories ==> c in OnReadySpec(cfg, st, loader).loadedCategories
  {
    if ScriptsDue(cfg, st) {
      var s1 := (if loader then st.(trace := st.trace + [LoadScripts]) else st).(scriptsLoaded := true);
      LoadCategoryScriptsShape(s1, s1.categories, loader);
    }
  }

  // ---- the cookie sweep ----

  /** After BlockCookies over a list without repeats, a cookie is gone exactly
      when it was listed, is not allowed, and some domain of the walk
      confirmed its removal; cookies that stay keep their values, and only
      the jar and the trace change. */
  lemma {:induction false} SweepFate(cfg: Config, st: State, order: seq<string>, host: string, remove: (string, string) -> bool)
    requires ConfigOk(cfg) && NoDuplicates(order)
    ensures var r := SweepSpec(cfg, st, order, host, remove);
      r == st.(trace := r.trace, jar := r.jar)
      && (forall n :: n in r.jar <==>
            (n in st.jar && (n !in order || Allowed(cfg, st.categories, n) || !RemovalConfirmed(n, host, remove))))
      && (forall n :: n in r.jar ==> r.jar[n] == st.jar[n])
    decreases |order|
  {
    if order != [] {
      var s1 := SweepOne(cfg, st, order[0], host, remove);
      assert NoDuplicates(order[1..]) by {
        forall i, j | 0 <= i < j < |order[1..]| ensures order[1..][i] != order[1..][j] {
          assert order[1..][i] == order[i + 1] && order[1..][j] == order[j + 1];
        }
      }
      SweepOneFate(cfg, st, order[0], host, remove);
      SweepFate(cfg, s1, order[1..], host, remove);
      var r := SweepSpec(cfg, s1, order[1..], host, remove);
      assert forall n :: n in order <==> n == order[0] || n in order[1..] by {
        assert order == [order[0]] + order[1..];
      }
      assert order[0] !in order[1..] by {
        forall k | 0 <= k < |order[1..]| ensures order[1..][k] != order[0] {
          assert order[1..][k] == order[k + 1];
        }
      }
      forall n
        ensures n in r.jar <==>
          (n in st.jar && (n !in order || Allowed(cfg, st.categories, n) || !RemovalConfirmed(n, host, remove)))
      {
      }
      forall n | n in r.jar
        ensures r.jar[n] == st.jar[n]
      {
      }
    }
  }

  /** One cookie of the sweep: only that cookie can go, and only when it is
      not allowed and its removal was confirmed. */
  lemma SweepOneFate(cfg: Config, st: State, name: string, host: string, remove: (string, string) -> bool)
    requires ConfigOk(cfg)
    ensures var r := SweepOne(cfg, st, name, host, remove);
      r == st.(trace := r.trace, jar := r.jar)
      && (forall n :: n in r.jar <==>
            (n in st.jar && (n != name || Allowed(cfg, st.categories, n) || !RemovalConfirmed(n, host, remove))))
      && (forall n :: n in r.jar ==> r.jar[n] == st.jar[n])
  {
  }

  /** When every listed cookie is allowed, BlockCookies changes nothing. */
  lemma {:induction false} SweepAllAllowed(cfg: Config, st: State, order: seq<string>, host: string, remove: (string, string) -> bool)
    requires ConfigOk(cfg)
    requires forall k :: 0 <= k < |order| ==> Allowed(cfg, st.categories, order[k])
    ensures SweepSpec(cfg, st, order, host, remove) == st
    decreases |order|
  {
    if order != [] {
      assert SweepOne(cfg, st, order[0], host, remove) == st;
      assert forall k :: 0 <= k < |order[1..]| ==> order[1..][k] == order[k + 1];
      SweepAllAllowed(cfg, st, order[1..], host, remove);
    }
  }

  /** A second sweep over the cookies left by a first one removes nothing
      more: what remains is allowed or could not be removed. */
  lemma SweepJarIdempotent(cfg: Config, st: State, order: seq<string>, order2: seq<string>,
                           host: string, remove: (string, string) -> bool)
    requires ConfigOk(cfg) && Enumerates(order, st.jar) && NoDuplicates(order2)
    ensures SweepSpec(cfg, SweepSpec(cfg, st, order, host, remove), order2, host, remove).jar
         == SweepSpec(cfg, st, order, host, remove).jar
  {
    var r1 := SweepSpec(cfg, st, order, host, remove);
    SweepFate(cfg, st, order, host, remove);
    var r2 := SweepSpec(cfg, r1, order2, host, remove);
    SweepFate(cfg, r1, order2, host, remove);
    forall n | n in r1.jar ensures n in r2.jar {
      assert n in st.jar;
      assert n in (set m | m in order);
    }
    assert r2.jar.Keys == r1.jar.Keys;
  }

  // ---- loadCategoryScripts as written ----

  /** loadCategoryScripts as written: `for (var cat in categories)` walks the
      array's indices, and the loaded flags are keyed by those indices. */
  function LoadByIndexFrom(loaded: set<nat>, cats: seq<string>, i: nat, loader: bool): (seq<string>, set<nat>)
    decreases |cats| - i
  {
    if i >= |cats| then ([], loaded)
    else if i !in loaded && loader then
      var (rest, l) := LoadByIndexFrom(loaded + {i}, cats, i + 1, loader);
      ([cats[i]] + rest, l)
    else LoadByIndexFrom(loaded, cats, i + 1, loader)
  }

  /** A page that loaded ["analytics"] and then saves ["marketing"] never
      loads the marketing scripts, because index 0 is already flagged; keyed
      by name, marketing is loaded. */
  lemma LoadByIndexMissesCategory()
    ensures LoadByIndexFrom({}, ["analytics"], 0, true) == (["analytics"], {0})
    ensures LoadByIndexFrom({0}, ["marketing"], 0, true) == ([], {0})
    ensures NewLoads({"analytics"}, ["marketing"], true) == ["marketing"]
  {
    var none: set<nat> := {};
    var first: seq<string> := ["analytics"];
    assert none + {0} == {0};
    assert LoadByIndexFrom({0}, first, 1, true) == ([], {0});
    assert [first[0]] + [] == first;
    assert LoadByIndexFrom(none, first, 0, true) == ([first[0]] + [], {0});
    assert LoadByIndexFrom({0}, ["marketing"], 1, true) == ([], {0});
  }
}
