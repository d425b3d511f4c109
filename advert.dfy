/** The DFP advert behaviour: the registry of defined slots keyed by div id,
    the close button with its timed suppression of the full-page mobile
    advert, the loop over the advert divs that skips excluded sizes, and the
    best-universities select. googletag itself is foreign: defining,
    refreshing and destroying a slot are recorded as effects. */
module Advert {
  import opened Common
  import opened Decimal
  import opened Json
  import opened Consent
  import opened SubNav

  /** The position whose advert can be closed for a chosen time. */
  const FullPageMobile := "the_dfp_full_page_mobile"

  /** A data attribute as jQuery's `.data()` hands it back: text reading
      "true", "false" or "null" becomes that value, text that is a number
      as JavaScript writes numbers (String(+text) == text) becomes the
      number, kept here as that text, and any other text stays a string. */
  datatype Data = Str(s: string) | Num(text: NumText) | Bool(b: bool) | Null

  /** The text JavaScript writes for a number: never empty. */
  type NumText = t: string | t != "" witness "0"

  /** The data attributes of an advert div, as `.data()` returns them;
      None is an absent attribute (undefined). */
  datatype Div = Div(
    id: string,
    adUnit: Option<Data>,
    priority: Option<Data>,
    anv: Option<Data>,
    ank: Option<Data>,
    rankingType: Option<Data>,
    adPage: Option<Data>,
    keyValues: Option<Data>,
    outOfPage: bool,
    size: Option<Data>,
    mobileSize: Option<Data>,
    limit: Option<Data>,
    position: Option<Data>)

  datatype SlotKind = OutOfPage | Sized(size: Option<Data>)

  datatype Slot = Slot(unit: string, kind: SlotKind, targeting: seq<(string, string)>, dfpId: string)

  datatype AdEffect = Refresh(id: string) | Destroy(id: string)

  /** JavaScript truthiness of an attribute value: undefined, null, false,
      '', 0 and NaN are falsy. */
  predicate Truthy(x: Option<Data>) {
    match x
    case None => false
    case Some(Str(s)) => s != ""
    case Some(Num(t)) => t != "0" && t != "NaN"
    case Some(Bool(b)) => b
    case Some(Null) => false
  }

  /** `"" + x`: the value converted to a string; undefined is "undefined". */
  function JsText(x: Option<Data>): string {
    match x
    case None => "undefined"
    case Some(Str(s)) => s
    case Some(Num(t)) => t
    case Some(Bool(b)) => if b then "true" else "false"
    case Some(Null) => "null"
  }

  /** The value `.data()` hands back, used where the source writes
      `(data(x) || '')` and then tests `.length`: only a non-empty string is
      kept, and "" stands for "not used". */
  function StringValue(x: Option<Data>): (r: string)
    ensures r != "" <==> x.Some? && x.value.Str? && x.value.s != ""
    ensures r != "" ==> r == x.value.s
  {
    if x.Some? && x.value.Str? then x.value.s else ""
  }

  /** `x || ''`: a falsy value is replaced by the empty string. */
  function OrEmpty(x: Option<Data>): Option<Data> {
    if Truthy(x) then x else Some(Str(""))
  }

  /** `y.length` used as a condition: a string has a length, which is truthy
      when non-zero; a number or a boolean has none (undefined). */
  predicate HasLength(y: Option<Data>) {
    y.Some? && y.value.Str? && |y.value.s| > 0
  }

  /** The value the source targets, `x || ''`, passes its `.length` test
      exactly when StringValue keeps it, and is then that string: a truthy
      number or boolean is dropped, a non-empty string is used as it is. */
  lemma StringValueMeaning(x: Option<Data>)
    ensures HasLength(OrEmpty(x)) <==> StringValue(x) != ""
    ensures HasLength(OrEmpty(x)) ==> OrEmpty(x) == Some(Str(StringValue(x)))
    ensures Truthy(x) && !x.value.Str? ==> !HasLength(OrEmpty(x))
  {
    if x.Some? && x.value.Str? {
      assert Truthy(x) <==> x.value.s != "";
    }
  }

  /** `"" + data(x) || d` as written: the concatenation runs first, so an
      absent attribute becomes the text "undefined" and the default is used
      only for an empty one. */
  function NativeAsWritten(x: Option<Data>, d: string): string {
    var s := "" + JsText(x);
    if s == "" then d else s
  }

  /** An advert div without data-anv and data-ank is targeted with the key
      "undefined" set to "undefined". */
  lemma NativeAsWrittenAbsent()
    ensures NativeAsWritten(None, "") == "undefined"
    ensures NativeAsWritten(None, "strnativekey") == "undefined"
  {
  }

  /** The native value and key as intended, `"" + (data(x) || d)`: the
      attribute forced to a string, the default when it is falsy. */
  function Native(x: Option<Data>, d: string): (r: string)
    ensures !Truthy(x) ==> r == d
    ensures Truthy(x) ==> r == JsText(x)
  {
    if Truthy(x) then JsText(x) else d
  }

  /** With the intended reading an absent data-anv sets no native targeting,
      an absent data-ank falls back to "strnativekey", and a numeric
      attribute is targeted as its text. */
  lemma NativeIntended(v: string, t: NumText)
    requires v != "" && t != "0" && t != "NaN"
    ensures |Native(None, "")| == 0
    ensures Native(Some(Str(v)), "") == v && Native(None, "strnativekey") == "strnativekey"
    ensures Native(Some(Num(t)), "") == t
  {
  }

  /** The only falsy value whose text is empty is the empty string; every
      truthy value has a non-empty text. */
  lemma FalsyText(x: Option<Data>)
    ensures !Truthy(x) ==> (JsText(x) == "" <==> x == Some(Str("")))
    ensures Truthy(x) ==> JsText(x) != ""
  {
    match x
    case None =>
    case Some(Str(v)) =>
    case Some(Num(t)) => assert t != "";
    case Some(Bool(b)) =>
    case Some(Null) =>
  }

  /** Where the code as written and the intended reading part: they agree
      on every truthy value and on the empty string, and otherwise (absent,
      null, false, 0 or NaN) the code as written targets the value's text
      where the intended reading uses the default. */
  lemma NativeReadings(x: Option<Data>, d: string)
    ensures Native(x, d) == NativeAsWritten(x, d) <==> Truthy(x) || x == Some(Str("")) || JsText(x) == d
    ensures !Truthy(x) && x != Some(Str("")) ==> NativeAsWritten(x, d) == JsText(x) && Native(x, d) == d
  {
    FalsyText(x);
  }

  /** One `setTargeting(key, value)` call, made only for a non-empty value. */
  function TargetIf(key: string, value: string): (r: seq<(string, string)>)
    ensures r == [] <==> value == ""
    ensures Filled(r)
  {
    if |value| > 0 then [(key, value)] else []
  }

  /** The targeting calls made on a new slot, in order. */
  function Targeting(div: Div, keyvalues: map<string, seq<(string, string)>>): seq<(string, string)> {
    var kv := StringValue(div.keyValues);
    TargetIf("priority", StringValue(div.priority))
    + TargetIf("ranking_type", StringValue(div.rankingType))
    + TargetIf("page_type", StringValue(div.adPage))
    + TargetIf(Native(div.ank, "strnativekey"), Native(div.anv, ""))
    + (if |kv| > 0 && kv in keyvalues then keyvalues[kv] else [])
  }

  /** The device size of a div: the mobile size below 760 pixels. */
  function DeviceSize(div: Div, mobile: bool): Option<Data> {
    if mobile then div.mobileSize else div.size
  }

  /** The slot dfp_advert_define_slot creates for a div that has none. */
  function NewSlot(div: Div, mobile: bool, keyvalues: map<string, seq<(string, string)>>): Slot {
    Slot("/" + JsText(div.adUnit),
         if div.outOfPage then OutOfPage else Sized(DeviceSize(div, mobile)),
         Targeting(div, keyvalues), div.id)
  }

  /** A new slot is named after its div, and its fixed targeting keys carry
      only non-empty values (each given one exactly when its attribute is). */
  lemma NewSlotMeaning(div: Div, mobile: bool, keyvalues: map<string, seq<(string, string)>>)
    requires div.keyValues.None?
    ensures NewSlot(div, mobile, keyvalues).dfpId == div.id
    ensures Filled(NewSlot(div, mobile, keyvalues).targeting)
    ensures ("priority", StringValue(div.priority)) in NewSlot(div, mobile, keyvalues).targeting
        <==> StringValue(div.priority) != ""
  {
    var t := NewSlot(div, mobile, keyvalues).targeting;
    var p := StringValue(div.priority);
    var b := TargetIf("ranking_type", StringValue(div.rankingType));
    var c := TargetIf("page_type", StringValue(div.adPage));
    var d := TargetIf(Native(div.ank, "strnativekey"), Native(div.anv, ""));
    assert t == TargetIf("priority", p) + (b + c + d) by {
      assert t == TargetIf("priority", p) + b + c + d + [];
    }
    assert Filled(b + c + d) by {
      Filled3(b, c, d);
    }
    Filled2(TargetIf("priority", p), b + c + d);
    if p == "" {
      assert ("priority", p) !in t;
    } else {
      assert t[0] == ("priority", p);
    }
  }

  /** Every targeting call has a non-empty value. */
  predicate Filled(ts: seq<(string, string)>) {
    forall k :: 0 <= k < |ts| ==> ts[k].1 != ""
  }

  lemma Filled2(a: seq<(string, string)>, b: seq<(string, string)>)
    requires Filled(a) && Filled(b)
    ensures Filled(a + b)
  {
    forall k | 0 <= k < |a + b| ensures (a + b)[k].1 != "" {
      if k >= |a| { assert (a + b)[k] == b[k - |a|]; }
    }
  }

  lemma Filled3(a: seq<(string, string)>, b: seq<(string, string)>, c: seq<(string, string)>)
    requires Filled(a) && Filled(b) && Filled(c)
    ensures Filled(a + b + c)
  {
    Filled2(a, b);
    Filled2(a + b, c);
  }

  /** `(data('adPosition') || '') === 'the_dfp_full_page_mobile'`. */
  predicate FullPage(div: Div) {
    div.position == Some(Str(FullPageMobile))
  }

  /** Whether the stored states keep the full-page mobile advert closed:
      show_menu is a time after `now` (and not one of the small default
      flags). */
  function HideAdvert(states: IntObject, now: int): (r: bool)
    ensures Get(states, "show_menu") == Some(1) ==> !r
  {
    match Get(states, "show_menu")
    case None => false
    case Some(v) => v > 2 && v > now
  }

  // ---- the advert page ----

  datatype AdState = AdState(
    slots: map<string, Slot>,
    current: Option<Slot>,
    showAdvert: bool,
    jar: Jar,
    buttons: seq<string>,
    removed: seq<string>,
    effects: seq<AdEffect>)

  /** dfp_advert_define_slot. A div id already in the registry is only
      refreshed (and the call returns true); otherwise the new slot is stored
      under the id. */
  function DefineSlotSpec(st: AdState, div: Div, mobile: bool, keyvalues: map<string, seq<(string, string)>>): AdState {
    if div.id in st.slots then
      st.(current := Some(st.slots[div.id]), effects := st.effects + [Refresh(div.id)])
    else
      var s := NewSlot(div, mobile, keyvalues);
      st.(current := Some(s), slots := st.slots[div.id := s])
  }

  /** dfp_advert_close_button when the page builds it. */
  function CloseButtonSpec(st: AdState, div: Div, now: int): AdState
    requires StatesReadable(st.jar, FullPageMobile)
  {
    if FullPage(div) then
      var states := GetStates(st.jar, FullPageMobile);
      if HideAdvert(states, now) then st.(removed := st.removed + [div.id], showAdvert := false)
      else
        var reset := FillDefaults(Put(Put(states, "show_menu", 1), "user_closed", 0), FillValues);
        st.(jar := st.jar[CookieName(FullPageMobile) := StatesCookie(reset)], buttons := st.buttons + [div.id])
    else st.(buttons := st.buttons + [div.id])
  }

  /** The click on the close button: the slot is destroyed; a full-page
      mobile advert records when it may show again. */
  function CloseClickSpec(st: AdState, div: Div, states: IntObject, now: int, limit: int): AdState {
    var s1 := st.(effects := st.effects + [Destroy(div.id)]);
    if FullPage(div) then
      var closed := FillDefaults(Put(Put(states, "show_menu", now + limit * 1000), "user_closed", 1), FillValues);
      s1.(jar := s1.jar[CookieName(FullPageMobile) := StatesCookie(closed)])
    else s1
  }

  /** Whether the loop skips a div for the current device. */
  predicate Excluded(div: Div, mobile: bool) {
    DeviceSize(div, mobile) == Some(Str("")) || DeviceSize(div, mobile) == Some(Str("exclude"))
  }

  /** One div of the page loop. */
  function VisitSpec(st: AdState, div: Div, mobile: bool, now: int, keyvalues: map<string, seq<(string, string)>>): AdState
    requires StatesReadable(st.jar, FullPageMobile)
  {
    if Excluded(div, mobile) then st
    else
      var s1 := st.(showAdvert := true);
      var s2 := if Truthy(div.limit) then CloseButtonSpec(s1, div, now) else s1;
      if s2.showAdvert then DefineSlotSpec(s2, div, mobile, keyvalues) else s2
  }

  /** Every cookie value the page writes for the states keeps them readable. */
  lemma CloseButtonReadable(st: AdState, div: Div, now: int)
    requires StatesReadable(st.jar, FullPageMobile)
    ensures StatesReadable(CloseButtonSpec(st, div, now).jar, FullPageMobile)
  {
    if FullPage(div) {
      var states := GetStates(st.jar, FullPageMobile);
      if !HideAdvert(states, now) {
        PutTwice(states, 1, 0);
        ReadableAfterFill(st.jar, Put(Put(states, "show_menu", 1), "user_closed", 0));
      }
    }
  }

  lemma DefineSlotKeepsJar(st: AdState, div: Div, mobile: bool, keyvalues: map<string, seq<(string, string)>>)
    ensures DefineSlotSpec(st, div, mobile, keyvalues).jar == st.jar
  {
  }

  lemma VisitReadable(st: AdState, div: Div, mobile: bool, now: int, keyvalues: map<string, seq<(string, string)>>)
    requires StatesReadable(st.jar, FullPageMobile)
    ensures StatesReadable(VisitSpec(st, div, mobile, now, keyvalues).jar, FullPageMobile)
  {
    if !Excluded(div, mobile) {
      var s1 := st.(showAdvert := true);
      CloseButtonReadable(s1, div, now);
      var s2 := if Truthy(div.limit) then CloseButtonSpec(s1, div, now) else s1;
      assert StatesReadable(s2.jar, FullPageMobile);
      DefineSlotKeepsJar(s2, div, mobile, keyvalues);
      assert VisitSpec(st, div, mobile, now, keyvalues) == if s2.showAdvert then DefineSlotSpec(s2, div, mobile, keyvalues) else s2;
    }
  }

  /** The page loop over the advert divs. */
  function VisitAllSpec(st: AdState, divs: seq<Div>, mobile: bool, now: int,
                        keyvalues: map<string, seq<(string, string)>>): AdState
    requires StatesReadable(st.jar, FullPageMobile)
    decreases |divs|
  {
    if divs == [] then st
    else
      VisitReadable(st, divs[0], mobile, now, keyvalues);
      VisitAllSpec(VisitSpec(st, divs[0], mobile, now, keyvalues), divs[1..], mobile, now, keyvalues)
  }

  /** Writing a filled record keeps the states cookie readable, given
      distinct keys. */
  lemma ReadableAfterFill(jar: Jar, o: IntObject)
    requires DistinctKeys(o)
    ensures StatesReadable(jar[CookieName(FullPageMobile) := StatesCookie(FillDefaults(o, FillValues))], FullPageMobile)
    ensures GetStates(jar[CookieName(FullPageMobile) := StatesCookie(FillDefaults(o, FillValues))], FullPageMobile)
         == FillDefaults(o, FillValues)
  {
    GetAfterSetStates(o, FullPageMobile, jar);
  }

  /** Two assignments to distinct keys keep the keys distinct and read back. */
  lemma PutTwice(o: IntObject, a: int, b: int)
    requires DistinctKeys(o)
    ensures var r := Put(Put(o, "show_menu", a), "user_closed", b);
      DistinctKeys(r) && Get(r, "show_menu") == Some(a) && Get(r, "user_closed") == Some(b)
  {
    PutMeaning(o, "show_menu", a, "user_closed");
    PutMeaning(Put(o, "show_menu", a), "user_closed", b, "show_menu");
  }

  class AdvertPage {
    var slots: map<string, Slot>
    var current: Option<Slot>
    var showAdvert: bool
    var jar: Jar
    var buttons: seq<string>
    var removed: seq<string>
    var effects: seq<AdEffect>

    function Abs(): AdState
      reads this
    {
      AdState(slots, current, showAdvert, jar, buttons, removed, effects)
    }

    constructor (jar: Jar)
      ensures Abs() == AdState(map[], None, true, jar, [], [], [])
    {
      slots, current, showAdvert, this.jar := map[], None, true, jar;
      buttons, removed, effects := [], [], [];
    }

    method DefineSlot(div: Div, mobile: bool, keyvalues: map<string, seq<(string, string)>>) returns (refreshed: bool)
      modifies this
      ensures Abs() == DefineSlotSpec(old(Abs()), div, mobile, keyvalues)
      ensures refreshed <==> div.id in old(slots)
    {
      if div.id in slots {
        current := Some(slots[div.id]);
        effects := effects + [Refresh(div.id)];
        return true;
      }
      var s := NewSlot(div, mobile, keyvalues);
      current := Some(s);
      slots := slots[div.id := s];
      return false;
    }

    /** Returns the states record the click handler goes on using; it is
        only read for the full-page mobile position. */
    method CloseButton(div: Div, now: int) returns (states: StateRecord)
      requires StatesReadable(jar, FullPageMobile)
      modifies this
      ensures fresh(states)
      ensures Abs() == CloseButtonSpec(old(Abs()), div, now)
    {
      if FullPage(div) {
        states := new StateRecord(GetStates(jar, FullPageMobile));
        if HideAdvert(states.entries, now) {
          removed := removed + [div.id];
          showAdvert := false;
        } else {
          states.Set("show_menu", 1);
          states.Set("user_closed", 0);
          jar := SetStates(states, FullPageMobile, jar);
          buttons := buttons + [div.id];
        }
      } else {
        states := new StateRecord([]);
        buttons := buttons + [div.id];
      }
    }

    /** One div of the page loop: skip excluded sizes, build the close
        button when the div has a limit, define the slot if it still shows. */
    method Visit(div: Div, mobile: bool, now: int, keyvalues: map<string, seq<(string, string)>>)
      requires StatesReadable(jar, FullPageMobile)
      modifies this
      ensures Abs() == VisitSpec(old(Abs()), div, mobile, now, keyvalues)
      ensures StatesReadable(jar, FullPageMobile)
    {
      if Excluded(div, mobile) {
        return;
      }
      showAdvert := true;
      CloseButtonReadable(Abs(), div, now);
      if Truthy(div.limit) {
        var _ := CloseButton(div, now);
      }
      if showAdvert {
        var _ := DefineSlot(div, mobile, keyvalues);
      }
    }

    method VisitAll(divs: seq<Div>, mobile: bool, now: int, keyvalues: map<string, seq<(string, string)>>)
      requires StatesReadable(jar, FullPageMobile)
      modifies this
      ensures Abs() == VisitAllSpec(old(Abs()), divs, mobile, now, keyvalues)
    {
      var i := 0;
      while i < |divs|
        invariant 0 <= i <= |divs|
        invariant StatesReadable(jar, FullPageMobile)
        invariant VisitAllSpec(Abs(), divs[i..], mobile, now, keyvalues) == VisitAllSpec(old(Abs()), divs, mobile, now, keyvalues)
      {
        assert divs[i..][1..] == divs[i + 1..];
        Visit(divs[i], mobile, now, keyvalues);
        i := i + 1;
      }
    }

    method CloseClick(div: Div, states: StateRecord, now: int, limit: int)
      modifies this, states
      ensures Abs() == CloseClickSpec(old(Abs()), div, old(states.entries), now, limit)
    {
      effects := effects + [Destroy(div.id)];
      if FullPage(div) {
        var j := CloseStates(states, now, limit, jar);
        jar := j;
      }
    }
  }

  /** The full-page mobile part of the close click: show_menu becomes the
      reopening time, user_closed 1, and the states cookie is rewritten. */
  method CloseStates(states: StateRecord, now: int, limit: int, jar: Jar) returns (jar': Jar)
    modifies states
    ensures jar' == jar[CookieName(FullPageMobile) :=
      StatesCookie(FillDefaults(Put(Put(old(states.entries), "show_menu", now + limit * 1000), "user_closed", 1), FillValues))]
  {
    ghost var e0 := states.entries;
    states.Set("show_menu", now + limit * 1000);
    ghost var e1 := states.entries;
    assert e1 == Put(e0, "show_menu", now + limit * 1000);
    states.Set("user_closed", 1);
    assert states.entries == Put(e1, "user_closed", 1);
    jar' := SetStates(states, FullPageMobile, jar);
  }

  // ---- properties ----

  /** A div whose id is registered is never registered again: the registry
      keeps the first slot and the later definition only refreshes it. */
  lemma DefineSlotOnce(st: AdState, div: Div, mobile: bool, keyvalues: map<string, seq<(string, string)>>)
    ensures div.id in DefineSlotSpec(st, div, mobile, keyvalues).slots
    ensures div.id in st.slots ==> DefineSlotSpec(st, div, mobile, keyvalues).slots == st.slots
    ensures div.id !in st.slots ==>
      DefineSlotSpec(st, div, mobile, keyvalues).slots == st.slots[div.id := NewSlot(div, mobile, keyvalues)]
    ensures DefineSlotSpec(st, div, mobile, keyvalues).current == Some(DefineSlotSpec(st, div, mobile, keyvalues).slots[div.id])
  {
  }

  /** Excluded divs change nothing; a div with no limit and a usable size
      ends up registered. */
  lemma VisitMeaning(st: AdState, div: Div, mobile: bool, now: int, keyvalues: map<string, seq<(string, string)>>)
    requires StatesReadable(st.jar, FullPageMobile)
    ensures Excluded(div, mobile) ==> VisitSpec(st, div, mobile, now, keyvalues) == st
    ensures !Excluded(div, mobile) && !Truthy(div.limit) ==>
      div.id in VisitSpec(st, div, mobile, now, keyvalues).slots
      && VisitSpec(st, div, mobile, now, keyvalues).buttons == st.buttons
      && VisitSpec(st, div, mobile, now, keyvalues).jar == st.jar
    ensures !Excluded(div, mobile) && Truthy(div.limit) && !FullPage(div) ==>
      div.id in VisitSpec(st, div, mobile, now, keyvalues).slots
      && VisitSpec(st, div, mobile, now, keyvalues).buttons == st.buttons + [div.id]
  {
  }

  /** `.data()` turns numeric text into a number: data-ad-limit="0" is the
      falsy 0, so the div gets no close button, and data-ad-priority="1" is
      a number without a length, so no priority targeting is set. */
  lemma NumericAttributes(st: AdState, div: Div, mobile: bool, now: int, keyvalues: map<string, seq<(string, string)>>)
    requires StatesReadable(st.jar, FullPageMobile) && !Excluded(div, mobile)
    requires div.limit == Some(Num("0")) && div.priority == Some(Num("1"))
    requires div.anv.None? && div.rankingType.None? && div.adPage.None? && div.keyValues.None?
    ensures VisitSpec(st, div, mobile, now, keyvalues).buttons == st.buttons
    ensures div.id !in st.slots ==> VisitSpec(st, div, mobile, now, keyvalues).slots[div.id].targeting == []
  {
  }

  /** A full-page mobile advert closed until after `now` is removed and not
      defined; otherwise its states are reset to show_menu 1, user_closed 0,
      which no time suppresses. */
  lemma SuppressionMeaning(st: AdState, div: Div, now: int, later: int)
    requires StatesReadable(st.jar, FullPageMobile) && FullPage(div)
    ensures var r := CloseButtonSpec(st, div, now);
      HideAdvert(GetStates(st.jar, FullPageMobile), now) ==> !r.showAdvert && r.removed == st.removed + [div.id]
    ensures var r := CloseButtonSpec(st, div, now);
      !HideAdvert(GetStates(st.jar, FullPageMobile), now) ==>
        StatesReadable(r.jar, FullPageMobile)
        && Get(GetStates(r.jar, FullPageMobile), "show_menu") == Some(1)
        && Get(GetStates(r.jar, FullPageMobile), "user_closed") == Some(0)
        && !HideAdvert(GetStates(r.jar, FullPageMobile), later)
  {
    var states := GetStates(st.jar, FullPageMobile);
    var o := Put(Put(states, "show_menu", 1), "user_closed", 0);
    PutTwice(states, 1, 0);
    ReadableAfterFill(st.jar, o);
    FillDefaultsMeaning(o, FillValues, "show_menu");
    FillDefaultsMeaning(o, FillValues, "user_closed");
  }

  /** Closing a full-page mobile advert keeps it suppressed from `now` until
      the limit in seconds has passed, and no longer. */
  lemma CloseSuppressesUntil(st: AdState, div: Div, states: IntObject, now: int, limit: int, t: int)
    requires DistinctKeys(states) && FullPage(div)
    requires now + limit * 1000 > 2
    ensures var r := CloseClickSpec(st, div, states, now, limit);
      StatesReadable(r.jar, FullPageMobile)
      && Get(GetStates(r.jar, FullPageMobile), "user_closed") == Some(1)
      && (HideAdvert(GetStates(r.jar, FullPageMobile), t) <==> t < now + limit * 1000)
  {
    var o := Put(Put(states, "show_menu", now + limit * 1000), "user_closed", 1);
    PutTwice(states, now + limit * 1000, 1);
    ReadableAfterFill(st.jar, o);
    FillDefaultsMeaning(o, FillValues, "show_menu");
    FillDefaultsMeaning(o, FillValues, "user_closed");
  }

  // ---- the best-universities select ----

  class UniversitySelect {
    var value: string
    var location: Option<string>

    /** Page load resets the select. */
    constructor ()
      ensures value == "default" && location.None?
    {
      value, location := "default", None;
    }

    method Change(chosen: string)
      modifies this
      ensures value == chosen
      ensures location == if chosen != "default" then Some(chosen) else old(location)
    {
      value := chosen;
      if chosen != "default" {
        location := Some(chosen);
      }
    }
  }
}
