/** The site's own analytics and nag-footer behaviours: the page metadata
    record built from `<meta property="mz…">` tags, the B2B lead guard, the
    rankings-body toggle, the list-modal click parameters and the nag footer
    that slides in once the page has scrolled past a trigger point. */
module Theme {
  import opened Common
  import opened Decimal

  // ---------------------------------------------------------------------
  // Page metadata
  // ---------------------------------------------------------------------

  /** One `<meta>` element: its "property" and "content" attributes
      (getAttribute gives null, here None, when one is missing). */
  datatype Meta = Meta(property: Option<string>, content: Option<string>)

  /** The loop reads a tag when its property is truthy and contains "mz". */
  predicate Relevant(m: Meta) {
    m.property.Some? && m.property.value != "" && Find(m.property.value, "mz").Some?
  }

  /** The key a relevant tag writes: its property with the first "mz:" removed. */
  function MetaKey(m: Meta): string
    requires m.property.Some?
  {
    ReplaceFirst(m.property.value, "mz:", "")
  }

  /** The tag writes key k. */
  predicate Writes(m: Meta, k: string) {
    Relevant(m) && MetaKey(m) == k
  }

  /** The record the loop has built after the given tags, or None once a
      relevant tag without content makes `content.toLowerCase()` throw. */
  function MetaMap(ms: seq<Meta>): Option<map<string, string>>
    decreases |ms|
  {
    if ms == [] then Some(map[])
    else
      var prev := MetaMap(ms[..|ms| - 1]);
      var m := ms[|ms| - 1];
      if prev.None? || !Relevant(m) then prev
      else if m.content.None? then None
      else Some(prev.value[MetaKey(m) := Lower(m.content.value)])
  }

  /** Once the loop has thrown, the later tags do not matter. */
  lemma {:induction false} MetaMapPrefixNone(ms: seq<Meta>, n: nat)
    requires n <= |ms| && MetaMap(ms[..n]).None?
    ensures MetaMap(ms).None?
    decreases |ms|
  {
    if n < |ms| {
      var front := ms[..|ms| - 1];
      assert front[..n] == ms[..n];
      MetaMapPrefixNone(front, n);
    } else {
      assert ms[..n] == ms;
    }
  }

  /** A relevant tag without content: reading it throws. */
  predicate Throws(m: Meta) {
    Relevant(m) && m.content.None?
  }

  /** The loop throws exactly when some relevant tag has no content. */
  lemma {:induction false} MetaMapThrows(ms: seq<Meta>)
    ensures MetaMap(ms).None? <==> exists i :: 0 <= i < |ms| && Throws(ms[i])
    decreases |ms|
  {
    if ms != [] {
      var front := ms[..|ms| - 1];
      MetaMapThrows(front);
      if exists i :: 0 <= i < |front| && Throws(front[i]) {
        var i :| 0 <= i < |front| && Throws(front[i]);
        assert ms[i] == front[i];
      }
      if exists i :: 0 <= i < |ms| && Throws(ms[i]) {
        var i :| 0 <= i < |ms| && Throws(ms[i]);
        if i < |front| { assert front[i] == ms[i]; }
      }
    }
  }

  /** One more tag adds at most its own key. */
  lemma MetaMapKeysStep(ms: seq<Meta>, k: string)
    requires ms != [] && MetaMap(ms).Some?
    ensures MetaMap(ms[..|ms| - 1]).Some?
    ensures k in MetaMap(ms).value <==> k in MetaMap(ms[..|ms| - 1]).value || Writes(ms[|ms| - 1], k)
  {
  }

  /** Some element satisfies p exactly when one before the last does or the last does. */
  lemma SomewhereStep<T>(xs: seq<T>, front: seq<T>, p: T -> bool)
    requires xs != [] && front == xs[..|xs| - 1]
    ensures (exists i :: 0 <= i < |xs| && p(xs[i]))
      <==> (exists i :: 0 <= i < |front| && p(front[i])) || p(xs[|xs| - 1])
  {
    if exists i :: 0 <= i < |front| && p(front[i]) {
      var i :| 0 <= i < |front| && p(front[i]);
      assert xs[i] == front[i];
    }
    if exists i :: 0 <= i < |xs| && p(xs[i]) {
      var i :| 0 <= i < |xs| && p(xs[i]);
      if i < |front| { assert front[i] == xs[i]; }
    }
  }

  /** A key is in the record exactly when some relevant tag writes it. */
  lemma {:induction false} MetaMapKeys(ms: seq<Meta>, k: string)
    requires MetaMap(ms).Some?
    ensures k in MetaMap(ms).value <==> exists i :: 0 <= i < |ms| && Writes(ms[i], k)
    decreases |ms|
  {
    if ms != [] {
      MetaMapKeysStep(ms, k);
      MetaMapKeys(ms[..|ms| - 1], k);
      SomewhereStep(ms, ms[..|ms| - 1], m => Writes(m, k));
    }
  }

  /** The value under a key is the lower-cased content of the last tag that
      writes it: later tags overwrite earlier ones. */
  lemma {:induction false} MetaMapLastWins(ms: seq<Meta>, k: string, j: nat)
    requires MetaMap(ms).Some? && j < |ms| && Writes(ms[j], k)
    requires forall i :: j < i < |ms| ==> !Writes(ms[i], k)
    ensures ms[j].content.Some?
    ensures k in MetaMap(ms).value && MetaMap(ms).value[k] == Lower(ms[j].content.value)
    decreases |ms|
  {
    var front := ms[..|ms| - 1];
    if j < |ms| - 1 {
      forall i | j < i < |front| ensures !Writes(front[i], k) { assert front[i] == ms[i]; }
      assert front[j] == ms[j];
      MetaMapLastWins(front, k, j);
    }
  }

  /** The metadata loop followed by `$.extend(pageMetadata, page_variables)`;
      None when the loop throws. */
  method BuildPageMetadata(metas: seq<Meta>, pageVariables: map<string, string>)
      returns (r: Option<map<string, string>>)
    ensures r == if MetaMap(metas).Some? then Some(MetaMap(metas).value + pageVariables) else None
  {
    var pageMetadata: map<string, string> := map[];
    var i := 0;
    while i < |metas|
      invariant 0 <= i <= |metas|
      invariant MetaMap(metas[..i]) == Some(pageMetadata)
    {
      assert metas[..i + 1][..i] == metas[..i];
      var p := metas[i].property;
      if p.Some? && p.value != "" {
        if Find(p.value, "mz").Some? {
          var content := metas[i].content;
          if content.None? {
            MetaMapPrefixNone(metas, i + 1);
            return None;
          }
          pageMetadata := pageMetadata[ReplaceFirst(p.value, "mz:", "") := Lower(content.value)];
        }
      }
      i := i + 1;
    }
    assert metas[..i] == metas;
    r := Some(pageMetadata + pageVariables);
  }

  /** In the finished record a module's page variable beats any meta tag;
      other keys come from the meta tags alone. */
  lemma PageVariablesOverride(ms: seq<Meta>, pageVariables: map<string, string>, k: string)
    requires MetaMap(ms).Some?
    ensures var r := MetaMap(ms).value + pageVariables;
      (k in pageVariables ==> k in r && r[k] == pageVariables[k])
      && (k !in pageVariables ==> (k in r <==> exists i :: 0 <= i < |ms| && Writes(ms[i], k)))
  {
    MetaMapKeys(ms, k);
  }

  // ---------------------------------------------------------------------
  // B2B lead form
  // ---------------------------------------------------------------------

  /** The parameters of the lead SUBMIT event. */
  datatype Lead = Lead(eventTitle: string, eventSource: string, eventGtagGoalID: string)

  const B2BLead := Lead("THEMagazine", "B2BLead", "7YK7CImqjscBELCzuvoC")

  /** How many of the required inputs' values are empty (the filter's length). */
  function EmptyCount(values: seq<string>): (n: nat)
    ensures n <= |values|
  {
    if values == [] then 0 else (if values[0] == "" then 1 else 0) + EmptyCount(values[1..])
  }

  /** The events one submit emits: the lead event when no required input is empty. */
  function B2BSubmit(values: seq<string>): seq<Lead> {
    if EmptyCount(values) == 0 then [B2BLead] else []
  }

  /** The filter count is zero exactly when every required value is filled. */
  lemma {:induction false} EmptyCountZero(values: seq<string>)
    ensures EmptyCount(values) == 0 <==> forall i :: 0 <= i < |values| ==> values[i] != ""
  {
    if values != [] {
      EmptyCountZero(values[1..]);
      forall i | 0 < i < |values| ensures values[i] == values[1..][i - 1] { }
    }
  }

  /** The lead event is sent exactly once when every required input is
      filled and not at all when one is empty. */
  lemma B2BGuard(values: seq<string>)
    ensures (forall i :: 0 <= i < |values| ==> values[i] != "") ==> B2BSubmit(values) == [B2BLead]
    ensures (exists i :: 0 <= i < |values| && values[i] == "") ==> B2BSubmit(values) == []
  {
    EmptyCountZero(values);
  }

  // ---------------------------------------------------------------------
  // Rankings body toggle
  // ---------------------------------------------------------------------

  /** The CLICK parameters of the collapse-text toggle. */
  datatype ToggleParams = ToggleParams(eventTitle: string, viewType: string, moduleName: string, moduleType: string)

  /** The parameters sent for a click on a toggle link whose html is given. */
  function RankingsToggle(html: string): (r: ToggleParams)
    ensures r.eventTitle == "read more" && r.viewType == "toggle" && r.moduleName == "rankings_body"
    ensures r.moduleType == "open" || r.moduleType == "close"
    ensures r.moduleType == "open" <==> html == "Read more..."
  {
    ToggleParams("read more", "toggle", "rankings_body", if html == "Read more..." then "open" else "close")
  }

  /** Every toggle click sends one of exactly two records, which differ
      only in the module type; only the link text "Read more..." is
      reported as opening the text. */
  lemma ToggleReports(h1: string, h2: string)
    ensures RankingsToggle(h1).moduleType == "open" && RankingsToggle(h2).moduleType == "open" ==> h1 == h2
    ensures RankingsToggle(h1) == RankingsToggle(h2) || RankingsToggle(h1).moduleType != RankingsToggle(h2).moduleType
    ensures h1 != "Read more..." && h2 != "Read more..." ==> RankingsToggle(h1) == RankingsToggle(h2)
  {
  }

  // ---------------------------------------------------------------------
  // List modals
  // ---------------------------------------------------------------------

  /** The four list actions the modal tracker binds. */
  datatype ListModal = AddToList | ViewListBasket | ModalSaveList | SaveList

  /** What the handler looks at on the clicked element: whether it sits in
      the profile-title add-to-list pane or in the list-basket view, its
      title attribute and its value. */
  datatype ClickSite = ClickSite(inProfileTitle: bool, inListBasket: bool, title: Option<string>, value: string)

  /** The SUBMIT parameters of a list-modal click (eventSource None when
      the handler sets none). */
  datatype ListParams = ListParams(eventTitle: string, eventSource: Option<string>, viewType: string)

  function DefaultTitle(which: ListModal): string {
    match which
    case AddToList => "add to list"
    case ViewListBasket => "view list"
    case ModalSaveList => "save list"
    case SaveList => "save to list"
  }

  /** The save_list title: the button value lower-cased and trimmed, with
      its first "(s)" removed. */
  function SaveListTitle(value: string): string {
    ReplaceFirst(Trim(Lower(value)), "(s)", "")
  }

  predicate NoUpper(s: string) {
    forall i :: 0 <= i < |s| ==> !IsUpperAscii(s[i])
  }

  /** Trimming keeps a text free of ASCII capitals. */
  lemma NoUpperTrim(s: string)
    requires NoUpper(s)
    ensures NoUpper(Trim(s))
  {
    var a := LeadingSpace(s);
    var rest := s[a..];
    var t := rest[..|rest| - TrailingSpace(rest)];
    assert Trim(s) == t;
    forall i | 0 <= i < |t| ensures !IsUpperAscii(t[i]) { assert t[i] == s[a + i]; }
  }

  /** Removing "(s)" keeps a text free of ASCII capitals and shortens it by three. */
  lemma NoUpperRemove(t: string)
    requires NoUpper(t)
    ensures NoUpper(ReplaceFirst(t, "(s)", ""))
    ensures Find(t, "(s)").Some? ==> |ReplaceFirst(t, "(s)", "")| == |t| - 3
  {
    if Find(t, "(s)").Some? {
      var k := Find(t, "(s)").value;
      var r := ReplaceFirst(t, "(s)", "");
      assert OccursAt(t, "(s)", k) && forall j :: 0 <= j < k ==> !OccursAt(t, "(s)", j);
      assert r == t[..k] + "" + t[k + 3..];
      assert r == t[..k] + t[k + 3..];
      forall i | 0 <= i < |r| ensures !IsUpperAscii(r[i]) {
        if i < k { assert r[i] == t[i]; } else { assert r[i] == t[i + 3]; }
      }
    }
  }

  /** The save_list title holds no ASCII capital, and it is the trimmed
      lower-cased value with exactly one "(s)" taken out when there is one. */
  lemma SaveListTitleMeaning(value: string)
    ensures NoUpper(SaveListTitle(value))
    ensures Find(Trim(Lower(value)), "(s)").None? ==> SaveListTitle(value) == Trim(Lower(value))
    ensures Find(Trim(Lower(value)), "(s)").Some? ==> |SaveListTitle(value)| == |Trim(Lower(value))| - 3
  {
    NoUpperTrim(Lower(value));
    NoUpperRemove(Trim(Lower(value)));
  }

  /** jQuery's `.closest(…)` result: a set of elements, never a string. */
  datatype JQuerySet = JQuerySet(length: nat)

  function Closest(found: bool): JQuerySet {
    JQuerySet(if found then 1 else 0)
  }

  /** `x !== 'undefined'` for a jQuery set x: an object is never strictly
      equal to a string. */
  function NotUndefinedString(x: JQuerySet): bool {
    true
  }

  /** add_to_list's eventSource as the code is written: the first test
      compares the jQuery set with a string and so always holds. */
  function AddToListSourceAsWritten(site: ClickSite): Option<string> {
    if NotUndefinedString(Closest(site.inProfileTitle)) then Some("university profile")
    else if Closest(site.inListBasket).length > 0 then Some("add to list checkout")
    else None
  }

  /** As written every click is reported as coming from the university
      profile: a click from the list basket outside the profile pane too. */
  lemma AddToListCheckoutUnreachable()
    ensures forall site :: AddToListSourceAsWritten(site) == Some("university profile")
    ensures AddToListSourceAsWritten(ClickSite(false, true, None, "")) == Some("university profile")
  {
  }

  /** add_to_list's eventSource with both tests on the set's length. */
  function AddToListSource(site: ClickSite): Option<string> {
    if Closest(site.inProfileTitle).length > 0 then Some("university profile")
    else if Closest(site.inListBasket).length > 0 then Some("add to list checkout")
    else None
  }

  /** The intended source: the profile pane, else the checkout basket, else none. */
  lemma AddToListSourceIntended(site: ClickSite)
    ensures site.inProfileTitle ==> AddToListSource(site) == Some("university profile")
    ensures !site.inProfileTitle && site.inListBasket ==> AddToListSource(site) == Some("add to list checkout")
    ensures !site.inProfileTitle && !site.inListBasket ==> AddToListSource(site).None?
  {
  }

  /** The parameters one list-modal click sends. */
  function ListModalParams(which: ListModal, site: ClickSite): ListParams {
    var base := ListParams(DefaultTitle(which), None, "modal");
    match which
    case AddToList =>
      ListParams(if site.title.Some? && site.title.value != "" then Lower(site.title.value) else base.eventTitle,
                 AddToListSource(site), base.viewType)
    case SaveList => ListParams(SaveListTitle(site.value), None, "basket")
    case _ => base
  }

  /** What a list-modal click reports: a save_list click sends a title
      without ASCII capitals in the "basket" view and no source; an
      add_to_list click names the pane it came from (the profile pane
      first, then the checkout basket) and sends the link title without
      ASCII capitals, or "add to list" when the link has none; the other two
      send their fixed title with the "modal" view and no source. */
  lemma ListModalParamsMeaning(which: ListModal, site: ClickSite)
    ensures var r := ListModalParams(which, site);
      NoUpper(r.eventTitle)
      && (r.viewType == "basket" <==> which == SaveList)
      && (r.eventSource.Some? ==> which == AddToList)
      && (which == SaveList ==> |r.eventTitle| <= |site.value|)
      && (which == AddToList ==>
            (r.eventSource == Some("university profile") <==> site.inProfileTitle)
            && (r.eventSource == Some("add to list checkout") <==> !site.inProfileTitle && site.inListBasket)
            && (site.title.None? ==> r.eventTitle == "add to list")
            && (site.title.Some? && site.title.value != "" ==> |r.eventTitle| == |site.title.value|))
      && (which == ViewListBasket ==> r.eventTitle == "view list")
      && (which == ModalSaveList ==> r.eventTitle == "save list")
  {
    var r := ListModalParams(which, site);
    match which
    case SaveList =>
      SaveListTitleMeaning(site.value);
      TrimShorter(Lower(site.value));
    case AddToList =>
      AddToListSourceIntended(site);
      if site.title.Some? && site.title.value != "" {
        assert NoUpper(Lower(site.title.value));
      } else {
        assert NoUpper("add to list");
      }
    case ViewListBasket =>
      assert NoUpper("view list");
    case ModalSaveList =>
      assert NoUpper("save list");
  }

  /** Trimming never lengthens a text. */
  lemma TrimShorter(s: string)
    ensures |Trim(s)| <= |s|
  {
    var a := LeadingSpace(s);
    assert Trim(s) == s[a..][..|s[a..]| - TrailingSpace(s[a..])];
  }

  // ---------------------------------------------------------------------
  // Nag footer
  // ---------------------------------------------------------------------

  /** A nag that "trumps" the footer: exactly one on the page and its
      cookie is not "true". */
  predicate Trumps(count: nat, cookie: Option<string>) {
    count == 1 && cookie != Some("true")
  }

  /** Whether attach goes on to set up the footer. */
  function NagSetUp(studentNags: nat, studentCookie: Option<string>, wallNags: nat, wallCookie: Option<string>): (r: bool)
    ensures r ==> !Trumps(studentNags, studentCookie) && !Trumps(wallNags, wallCookie)
  {
    !Trumps(studentNags, studentCookie) && !Trumps(wallNags, wallCookie)
  }

  /** The footer is set up whenever neither kind of nag is on the page, or
      both cookies say "true"; a single unconfirmed nag of either kind
      suppresses it. */
  lemma NagGate(studentNags: nat, studentCookie: Option<string>, wallNags: nat, wallCookie: Option<string>)
    ensures studentNags != 1 && wallNags != 1 ==> NagSetUp(studentNags, studentCookie, wallNags, wallCookie)
    ensures studentCookie == Some("true") && wallCookie == Some("true") ==> NagSetUp(studentNags, studentCookie, wallNags, wallCookie)
    ensures studentNags == 1 && studentCookie != Some("true") ==> !NagSetUp(studentNags, studentCookie, wallNags, wallCookie)
    ensures wallNags == 1 && wallCookie != Some("true") ==> !NagSetUp(studentNags, studentCookie, wallNags, wallCookie)
  {
  }

  /** The trigger point: `settings.start` read with parseInt when it is not
      empty (None stands for NaN), otherwise 800. */
  function Trigger(start: string): Option<int> {
    if |start| > 0 then ParseInt(start) else Some(800)
  }

  /** The page has scrolled past the trigger (a comparison with NaN is false). */
  predicate PastTrigger(y: int, start: string) {
    Trigger(start).Some? && y > Trigger(start).value
  }

  /** The footer's bottom offset in pixels after a scroll event. */
  function NagBottom(y: int, start: string, contentHeight: int): (b: int)
    ensures PastTrigger(y, start) ==> b == 0
    ensures !PastTrigger(y, start) ==> b == -contentHeight - 16
  {
    if PastTrigger(y, start) then 0 else -contentHeight - 16
  }

  /** With no start setting the trigger is 800; a start written from a
      number triggers at that number; a start that does not parse never
      brings the footer into view. */
  lemma TriggerMeaning(y: int, n: int, contentHeight: int)
    ensures PastTrigger(y, "") <==> y > 800
    ensures PastTrigger(y, IntToString(n)) <==> y > n
    ensures NagBottom(y, "none", contentHeight) == -contentHeight - 16
  {
    ParseIntOfIntToString(n);
    ParseIntRejects("none");
  }

  /** The footer element: the visibility the scroll handler reveals and the
      bottom offset it sets (None before the first scroll). */
  class NagFooter {
    const start: string
    var visible: bool
    var bottom: Option<int>

    constructor (start: string)
      ensures this.start == start && !visible && bottom.None?
    {
      this.start := start;
      visible := false;
      bottom := None;
    }

    /** The document scroll handler, with the content height read afresh. */
    method Scroll(y: int, contentHeight: int)
      modifies this
      ensures visible == (old(visible) || PastTrigger(y, start))
      ensures bottom == Some(NagBottom(y, start, contentHeight))
    {
      var h := Trigger(start);
      if h.Some? && y > h.value {
        visible := true;
        bottom := Some(0);
      } else {
        bottom := Some(-contentHeight - 16);
      }
    }
  }

  /** Once shown, the footer stays visible: scrolling back only slides it
      down out of view. */
  method ScrollBack(footer: NagFooter, down: int, up: int, contentHeight: int)
    requires PastTrigger(down, footer.start) && !PastTrigger(up, footer.start)
    modifies footer
    ensures footer.visible && footer.bottom == Some(-contentHeight - 16)
  {
    footer.Scroll(down, contentHeight);
    footer.Scroll(up, contentHeight);
  }
}
