/** The CTools modal helpers and the theme's list and progress widgets:
    findURL, the radio-aware list of tabbable elements, the Tab focus trap
    of WAI-ARIA 1.0 Authoring Practices section 3.3.1 ("Trapping Focus"),
    the animation and speed options of modalContent, limitList and
    progressBar.setProgress. */
module Modal {
  import opened Common
  import opened Decimal

  // ---------------------------------------------------------------------
  // findURL

  /** The non-empty values, in order. */
  function NonEmpty(values: seq<string>): (r: seq<string>)
    ensures |r| <= |values|
    ensures forall k :: 0 <= k < |r| ==> r[k] != ""
  {
    if values == [] then []
    else if values[|values| - 1] == "" then NonEmpty(values[..|values| - 1])
    else NonEmpty(values[..|values| - 1]) + [values[|values| - 1]]
  }

  /** The parts separated by "/". */
  function JoinSlash(parts: seq<string>): string {
    if parts == [] then ""
    else if |parts| == 1 then parts[0]
    else parts[0] + "/" + JoinSlash(parts[1..])
  }

  /** The pieces of s between the slashes (s.split('/')). */
  function Segments(s: string): (r: seq<string>)
    ensures |r| >= 1
  {
    if s == "" then [""]
    else
      var rest := Segments(s[1..]);
      if s[0] == '/' then [""] + rest else [[s[0]] + rest[0]] + rest[1..]
  }

  predicate NoSlash(s: string) {
    forall k :: 0 <= k < |s| ==> s[k] != '/'
  }

  /** findURL: the values of the item's "-url" fields, in document order,
      joined with "/" wherever both what is accumulated and the next value
      are non-empty. */
  method FindURL(values: seq<string>) returns (url: string)
    ensures url == JoinSlash(NonEmpty(values))
  {
    url := "";
    var i := 0;
    while i < |values|
      invariant 0 <= i <= |values|
      invariant url == JoinSlash(NonEmpty(values[..i]))
    {
      var v := values[i];
      assert values[..i + 1][..i] == values[..i];
      JoinSlashEmpty(NonEmpty(values[..i]));
      if url != "" && v != "" {
        JoinSlashSnoc(NonEmpty(values[..i]), v);
        url := url + "/";
      }
      url := url + v;
      i := i + 1;
    }
    assert values[..i] == values;
  }

  /** Non-empty parts join to the empty string only when there are none. */
  lemma JoinSlashEmpty(parts: seq<string>)
    requires forall k :: 0 <= k < |parts| ==> parts[k] != ""
    ensures JoinSlash(parts) == "" <==> parts == []
  {
    if |parts| > 1 {
      assert |JoinSlash(parts)| >= |parts[0]|;
    }
  }

  /** Joining one more part puts it after a "/". */
  lemma {:induction false} JoinSlashSnoc(parts: seq<string>, v: string)
    requires parts != []
    ensures JoinSlash(parts + [v]) == JoinSlash(parts) + "/" + v
    decreases |parts|
  {
    if |parts| > 1 {
      assert (parts + [v])[1..] == parts[1..] + [v];
      JoinSlashSnoc(parts[1..], v);
    } else {
      assert (parts + [v])[1..] == [v];
    }
  }

  /** A slash-free piece in front of the rest becomes the first segment's start. */
  lemma {:induction false} SegmentsPrefix(p: string, t: string)
    requires NoSlash(p)
    ensures Segments(p + t) == [p + Segments(t)[0]] + Segments(t)[1..]
    decreases |p|
  {
    if p != [] {
      assert (p + t)[1..] == p[1..] + t;
      SegmentsPrefix(p[1..], t);
      assert [p[0]] + (p[1..] + Segments(t)[0]) == p + Segments(t)[0];
    } else {
      assert p + t == t;
      assert Segments(t) == [Segments(t)[0]] + Segments(t)[1..];
      assert p + Segments(t)[0] == Segments(t)[0];
    }
  }

  /** Splitting a join of slash-free parts on "/" gives the parts back. */
  lemma {:induction false} SegmentsOfJoin(parts: seq<string>)
    requires parts != []
    requires forall k :: 0 <= k < |parts| ==> NoSlash(parts[k])
    ensures Segments(JoinSlash(parts)) == parts
    decreases |parts|
  {
    if |parts| == 1 {
      SegmentsPrefix(parts[0], "");
      assert parts[0] + "" == parts[0];
    } else {
      var rest := JoinSlash(parts[1..]);
      SegmentsOfJoin(parts[1..]);
      SegmentsPrefix(parts[0], "/" + rest);
      assert ("/" + rest)[1..] == rest;
      assert parts[0] + "/" + rest == parts[0] + ("/" + rest);
      assert Segments("/" + rest) == [""] + parts[1..];
      assert parts[0] + "" == parts[0];
    }
  }

  /** The URL carries exactly the non-empty field values, in order: when no
      value contains a slash, splitting it on "/" gives them back, and with
      no non-empty value it is ''. */
  lemma FindURLMeaning(values: seq<string>)
    requires forall k :: 0 <= k < |values| ==> NoSlash(values[k])
    ensures NonEmpty(values) == [] ==> JoinSlash(NonEmpty(values)) == ""
    ensures NonEmpty(values) != [] ==> Segments(JoinSlash(NonEmpty(values))) == NonEmpty(values)
  {
    NonEmptyFrom(values);
    if NonEmpty(values) != [] {
      SegmentsOfJoin(NonEmpty(values));
    }
  }

  /** Every non-empty value is one of the values. */
  lemma {:induction false} NonEmptyFrom(values: seq<string>)
    ensures forall k :: 0 <= k < |NonEmpty(values)| ==> NonEmpty(values)[k] in values
    decreases |values|
  {
    if values != [] {
      var front := values[..|values| - 1];
      NonEmptyFrom(front);
      forall k | 0 <= k < |NonEmpty(front)| ensures NonEmpty(front)[k] in values {
        var i :| 0 <= i < |front| && front[i] == NonEmpty(front)[k];
        assert values[i] == front[i];
      }
    }
  }

  /** An empty field anywhere changes nothing. */
  lemma {:induction false} NonEmptySkipsEmpty(a: seq<string>, b: seq<string>)
    ensures NonEmpty(a + [""] + b) == NonEmpty(a + b)
    decreases |b|
  {
    if b == [] {
      assert (a + [""] + b)[..|a + [""] + b| - 1] == a;
      assert a + b == a;
    } else {
      var b' := b[..|b| - 1];
      NonEmptySkipsEmpty(a, b');
      assert (a + [""] + b)[..|a + [""] + b| - 1] == a + [""] + b';
      assert (a + b)[..|a + b| - 1] == a + b';
    }
  }

  // ---------------------------------------------------------------------
  // The tabbable elements of the modal

  /** An element jQuery's `:tabbable` found in #modalContent, in document
      order. `id` stands for the DOM node's identity. */
  datatype Element = Element(id: nat, isRadio: bool, name: string, checked: bool)

  predicate Distinct(t: seq<Element>) {
    forall i, j :: 0 <= i < j < |t| ==> t[i] != t[j]
  }

  predicate InGroup(e: Element, name: string) {
    e.isRadio && e.name == name
  }

  /** Some radio button of the group is checked. */
  predicate GroupChecked(es: seq<Element>, name: string) {
    exists j :: 0 <= j < |es| && InGroup(es[j], name) && es[j].checked
  }

  /** No earlier element belongs to the same radio group. */
  predicate FirstOfGroup(es: seq<Element>, i: nat)
    requires i < |es|
  {
    forall j :: 0 <= j < i ==> !InGroup(es[j], es[i].name)
  }

  /** Only the checked buttons of a group are tabbable, or its first one
      when none is checked; every other element is. */
  predicate KeepAt(es: seq<Element>, i: nat)
    requires i < |es|
  {
    !es[i].isRadio
    || (if GroupChecked(es, es[i].name) then es[i].checked else FirstOfGroup(es, i))
  }

  /** The kept elements among the first n, in order. */
  function Kept(es: seq<Element>, n: nat): seq<Element>
    requires n <= |es|
  {
    if n == 0 then []
    else Kept(es, n - 1) + (if KeepAt(es, n - 1) then [es[n - 1]] else [])
  }

  /** The positions Kept takes its elements from. */
  function KeptIndices(es: seq<Element>, n: nat): seq<nat>
    requires n <= |es|
  {
    if n == 0 then []
    else KeptIndices(es, n - 1) + (if KeepAt(es, n - 1) then [n - 1] else [])
  }

  /** getTabbableElements: first record for each radio group whether any of
      its buttons is checked, then filter the list, remembering the groups
      whose first button was already kept. */
  method GetTabbableElements(es: seq<Element>) returns (r: seq<Element>)
    ensures r == Kept(es, |es|)
  {
    var radios := 0;
    var anySelected: map<string, bool> := map[];
    var i := 0;
    while i < |es|
      invariant 0 <= i <= |es|
      invariant radios == 0 <==> forall j :: 0 <= j < i ==> !es[j].isRadio
      invariant forall n :: n in anySelected ==> anySelected[n] == GroupChecked(es, n)
      invariant forall j :: 0 <= j < i && es[j].isRadio ==> es[j].name in anySelected
    {
      if es[i].isRadio {
        radios := radios + 1;
        if es[i].name !in anySelected {
          anySelected := anySelected[es[i].name := GroupChecked(es, es[i].name)];
        }
      }
      i := i + 1;
    }
    if radios == 0 {
      KeptWithoutRadios(es, |es|);
      return es;
    }
    var found: set<string> := {};
    r := [];
    i := 0;
    while i < |es|
      invariant 0 <= i <= |es|
      invariant r == Kept(es, i)
      invariant forall n :: n in found <==> exists j :: 0 <= j < i && InGroup(es[j], n) && !GroupChecked(es, n)
    {
      var e := es[i];
      var keep := true;
      if e.isRadio {
        if anySelected[e.name] {
          keep := e.checked;
        } else {
          if e.name in found {
            keep := false;
          } else {
            assert FirstOfGroup(es, i);
          }
          found := found + {e.name};
        }
      }
      assert keep == KeepAt(es, i);
      if keep {
        r := r + [e];
      }
      i := i + 1;
    }
  }

  /** Without radio buttons the filter keeps everything. */
  lemma {:induction false} KeptWithoutRadios(es: seq<Element>, n: nat)
    requires n <= |es|
    requires forall j :: 0 <= j < |es| ==> !es[j].isRadio
    ensures Kept(es, n) == es[..n]
    decreases n
  {
    if n > 0 {
      KeptWithoutRadios(es, n - 1);
      assert es[..n] == es[..n - 1] + [es[n - 1]];
    }
  }

  /** The filter is an order-preserving selection: the result is es read at
      strictly increasing positions, and those positions are exactly the
      ones KeepAt admits. */
  lemma {:induction false} KeptIndicesMeaning(es: seq<Element>, n: nat)
    requires n <= |es|
    ensures |KeptIndices(es, n)| == |Kept(es, n)|
    ensures forall k :: 0 <= k < |Kept(es, n)| ==>
      KeptIndices(es, n)[k] < n && Kept(es, n)[k] == es[KeptIndices(es, n)[k]]
    ensures forall k, l :: 0 <= k < l < |KeptIndices(es, n)| ==> KeptIndices(es, n)[k] < KeptIndices(es, n)[l]
    ensures forall i :: 0 <= i < n ==> (i in KeptIndices(es, n) <==> KeepAt(es, i))
    decreases n
  {
    if n > 0 {
      KeptIndicesMeaning(es, n - 1);
    }
  }

  /** Every element that is not a radio button stays tabbable. */
  lemma NonRadioKept(es: seq<Element>, i: nat)
    requires i < |es| && !es[i].isRadio
    ensures i in KeptIndices(es, |es|)
  {
    KeptIndicesMeaning(es, |es|);
  }

  /** In a group with a checked button exactly the checked buttons stay. */
  lemma CheckedGroupKeepsChecked(es: seq<Element>, i: nat)
    requires i < |es| && es[i].isRadio && GroupChecked(es, es[i].name)
    ensures i in KeptIndices(es, |es|) <==> es[i].checked
  {
    KeptIndicesMeaning(es, |es|);
  }

  /** In a group with no checked button exactly one button stays: the
      group's first. */
  lemma UncheckedGroupKeepsFirst(es: seq<Element>, name: string, i: nat)
    requires i < |es| && InGroup(es[i], name) && !GroupChecked(es, name)
    ensures exists f :: 0 <= f < |es| && InGroup(es[f], name) && f in KeptIndices(es, |es|)
    ensures forall f :: 0 <= f < |es| && InGroup(es[f], name) ==>
      (f in KeptIndices(es, |es|) <==> forall j :: 0 <= j < f ==> !InGroup(es[j], name))
  {
    KeptIndicesMeaning(es, |es|);
    var f := FirstIn(es, name, i);
    assert KeepAt(es, f);
  }

  /** The first position at or before i holding a button of the group. */
  lemma {:induction false} FirstIn(es: seq<Element>, name: string, i: nat) returns (f: nat)
    requires i < |es| && InGroup(es[i], name)
    ensures f <= i && InGroup(es[f], name)
    ensures forall j :: 0 <= j < f ==> !InGroup(es[j], name)
    decreases i
  {
    if exists j :: 0 <= j < i && InGroup(es[j], name) {
      var j :| 0 <= j < i && InGroup(es[j], name);
      f := FirstIn(es, name, j);
    } else {
      f := i;
    }
  }

  // ---------------------------------------------------------------------
  // The Tab focus trap

  const TabKey := 9

  /** What the keydown handler does: let the key through, keep the focus
      where it is (return false), move it inside the modal (return false),
      move it into the modal and let the key through, or throw because the
      list is empty and `undefined.focus()` is called. */
  datatype TrapOutcome = PassThrough | Held | Wrapped(to: Element) | Redirected(to: Element) | Fails

  /** modalTabTrapHandler. `tabbable` is getTabbableElements(), `node` the
      event target, `inOtherModal` whether one of its ancestors is
      positioned absolute or fixed. */
  function TabTrap(key: int, shift: bool, node: Element, tabbable: seq<Element>, inOtherModal: bool): TrapOutcome {
    if key != TabKey then PassThrough
    else if tabbable == [] then (if inOtherModal then PassThrough else Fails)
    else
      var first := tabbable[0];
      var last := tabbable[|tabbable| - 1];
      var single := first == last;
      if node == first && shift then (if single then Held else Wrapped(last))
      else if node == last && !shift then (if single then Held else Wrapped(first))
      else if node !in tabbable then
        (if inOtherModal then PassThrough else Redirected(if shift then last else first))
      else PassThrough
  }

  /** Keys other than Tab are never touched. */
  lemma TrapPassesOtherKeys(key: int, shift: bool, node: Element, tabbable: seq<Element>, inOtherModal: bool)
    requires key != TabKey
    ensures TabTrap(key, shift, node, tabbable, inOtherModal) == PassThrough
  {
  }

  /** Tab on the last element goes to the first, Shift+Tab on the first to
      the last, when there are at least two. */
  lemma TrapWraps(node: Element, tabbable: seq<Element>, inOtherModal: bool)
    requires Distinct(tabbable) && |tabbable| >= 2
    ensures node == tabbable[|tabbable| - 1] ==> TabTrap(TabKey, false, node, tabbable, inOtherModal) == Wrapped(tabbable[0])
    ensures node == tabbable[0] ==> TabTrap(TabKey, true, node, tabbable, inOtherModal) == Wrapped(tabbable[|tabbable| - 1])
  {
    assert tabbable[0] != tabbable[|tabbable| - 1];
  }

  /** With a single tabbable element Tab and Shift+Tab on it keep the focus. */
  lemma TrapSingleHolds(node: Element, shift: bool, inOtherModal: bool)
    ensures TabTrap(TabKey, shift, node, [node], inOtherModal) == Held
  {
  }

  /** Focus is only ever moved to a tabbable element of the modal, and the
      handler throws exactly when Tab is pressed with nothing tabbable
      outside any other modal. */
  lemma TrapTargetsInside(key: int, shift: bool, node: Element, tabbable: seq<Element>, inOtherModal: bool)
    ensures var o := TabTrap(key, shift, node, tabbable, inOtherModal);
      (o.Wrapped? ==> o.to in tabbable) && (o.Redirected? ==> o.to in tabbable && node !in tabbable)
    ensures TabTrap(key, shift, node, tabbable, inOtherModal) == Fails <==> key == TabKey && tabbable == [] && !inOtherModal
  {
  }

  // ---------------------------------------------------------------------
  // modalContent options

  /** The animation argument, None when it is absent or otherwise falsy
      (modelled by the empty string as well). */
  function Animation(animation: Option<string>): (r: string)
    ensures r == "show" || r == "fadeIn" || r == "slideDown"
  {
    if animation.None? || animation.value == "" then "show"
    else if animation.value != "fadeIn" && animation.value != "slideDown" then "show"
    else animation.value
  }

  /** A speed option: a jQuery speed name or a duration in milliseconds. */
  datatype Speed = Named(name: string) | Millis(ms: int)

  /** `if (!speed && 0 !== speed) speed = 'fast'`: an absent or empty speed
      becomes 'fast'; 0 stays 0. */
  function NormaliseSpeed(speed: Option<Speed>): Speed {
    if speed.None? || speed.value == Named("") then Named("fast") else speed.value
  }

  /** fadeIn and slideDown are kept, anything else shows, and normalising
      twice changes nothing. */
  lemma AnimationMeaning(animation: Option<string>)
    ensures Animation(animation) != "show" <==> animation == Some("fadeIn") || animation == Some("slideDown")
    ensures Animation(animation) != "show" ==> Some(Animation(animation)) == animation
    ensures Animation(Some(Animation(animation))) == Animation(animation)
  {
  }

  /** A given speed is kept (including 0 ms); only a missing or empty one
      becomes 'fast'; normalising twice changes nothing. */
  lemma SpeedMeaning(speed: Option<Speed>)
    ensures NormaliseSpeed(speed) != Named("fast") ==> Some(NormaliseSpeed(speed)) == speed
    ensures (speed.None? || speed == Some(Named(""))) ==> NormaliseSpeed(speed) == Named("fast")
    ensures speed == Some(Millis(0)) ==> NormaliseSpeed(speed) == Millis(0)
    ensures NormaliseSpeed(Some(NormaliseSpeed(speed))) == NormaliseSpeed(speed)
  {
  }

  // ---------------------------------------------------------------------
  // limitList

  /** How far "More" expands the list: everything, or n more children. */
  datatype Expand = All | Count(n: nat)

  /** `expand = expand || 'all'`: absent or 0 means everything. */
  function ExpandOption(expand: Option<nat>): Expand {
    if expand.None? || expand.value == 0 then All else Count(expand.value)
  }

  /** The number of hidden children. */
  function HiddenCount(visible: seq<bool>): (r: nat)
    ensures r <= |visible|
  {
    if visible == [] then 0
    else (if visible[0] then 0 else 1) + HiddenCount(visible[1..])
  }

  /** The visibility after "More": the first n hidden children (or all of
      them) are shown. */
  function Reveal(visible: seq<bool>, expand: Expand): (r: seq<bool>)
    ensures |r| == |visible|
  {
    if visible == [] then []
    else if visible[0] then [true] + Reveal(visible[1..], expand)
    else match expand
      case All => [true] + Reveal(visible[1..], All)
      case Count(n) =>
        if n == 0 then visible else [true] + Reveal(visible[1..], Count(n - 1))
  }

  predicate AllVisible(visible: seq<bool>) {
    forall i :: 0 <= i < |visible| ==> visible[i]
  }

  /** limitList: with more children than the limit, hide those from the
      limit on and add the "More" button; otherwise change nothing. */
  method LimitList(visible: array<bool>, limit: nat) returns (button: bool)
    modifies visible
    ensures button <==> visible.Length > limit
    ensures !button ==> visible[..] == old(visible[..])
    ensures button ==> forall i :: 0 <= i < visible.Length ==>
      visible[i] == (i < limit && old(visible[i]))
  {
    if visible.Length <= limit {
      return false;
    }
    var i := limit;
    while i < visible.Length
      invariant limit <= i <= visible.Length
      invariant forall j :: 0 <= j < visible.Length ==>
        visible[j] == (if limit <= j < i then false else old(visible[j]))
    {
      visible[i] := false;
      i := i + 1;
    }
    button := true;
  }

  /** The "More" click: show the first `expand` hidden children, then say
      whether the button hides because every child is visible. */
  method MoreClick(visible: array<bool>, expand: Expand) returns (hideButton: bool)
    modifies visible
    ensures visible[..] == Reveal(old(visible[..]), expand)
    ensures hideButton <==> AllVisible(visible[..])
  {
    ShowHidden(visible, expand);
    hideButton := forall j :: 0 <= j < visible.Length ==> visible[j];
  }

  /** `children('*:hidden').slice(0, expand).show()`, or all of them. */
  method ShowHidden(visible: array<bool>, expand: Expand)
    modifies visible
    ensures visible[..] == Reveal(old(visible[..]), expand)
  {
    ghost var v0 := visible[..];
    var hiddenSeen := 0;
    var i := 0;
    while i < visible.Length
      invariant 0 <= i <= visible.Length
      invariant hiddenSeen == HiddenCount(v0[..i])
      invariant forall j :: i <= j < visible.Length ==> visible[j] == v0[j]
      invariant forall j :: 0 <= j < i ==> visible[j] == RevealsAt(v0, expand, j)
    {
      HiddenCountSnoc(v0[..i], v0[i]);
      assert v0[..i + 1] == v0[..i] + [v0[i]];
      if !visible[i] {
        if expand.All? || hiddenSeen < expand.n {
          visible[i] := true;
        }
        hiddenSeen := hiddenSeen + 1;
      }
      i := i + 1;
    }
    forall j | 0 <= j < visible.Length
      ensures visible[j] == Reveal(v0, expand)[j]
    {
      RevealShowsOnly(v0, expand, j);
    }
  }

  /** Whether child j is visible after "More": it was, or fewer than n
      hidden children come before it. */
  predicate RevealsAt(v: seq<bool>, expand: Expand, j: nat)
    requires j < |v|
  {
    v[j] || expand.All? || HiddenCount(v[..j]) < expand.n
  }

  lemma {:induction false} HiddenCountSnoc(v: seq<bool>, b: bool)
    ensures HiddenCount(v + [b]) == HiddenCount(v) + (if b then 0 else 1)
    decreases |v|
  {
    if v != [] {
      assert (v + [b])[1..] == v[1..] + [b];
      HiddenCountSnoc(v[1..], b);
    } else {
      assert (v + [b])[1..] == [];
    }
  }

  lemma {:induction false} RevealNone(v: seq<bool>)
    ensures Reveal(v, Count(0)) == v
  {
    if v != [] && v[0] {
      RevealNone(v[1..]);
    }
  }

  /** "More" only shows children: visible ones stay visible, and with
      Count(n) only hidden children that have fewer than n hidden ones
      before them are shown. */
  lemma {:induction false} RevealShowsOnly(v: seq<bool>, expand: Expand, i: nat)
    requires i < |v|
    ensures v[i] ==> Reveal(v, expand)[i]
    ensures expand.All? ==> Reveal(v, expand)[i]
    ensures expand.Count? ==> (Reveal(v, expand)[i] <==> v[i] || HiddenCount(v[..i]) < expand.n)
    decreases i
  {
    if i > 0 {
      assert v[1..][..i - 1] == v[1..i];
      assert HiddenCount(v[..i]) == (if v[0] then 0 else 1) + HiddenCount(v[1..i]) by {
        assert v[..i][1..] == v[1..i];
      }
      if expand.Count? && expand.n == 0 && !v[0] {
        RevealNone(v);
        assert HiddenCount(v[..i]) >= 1;
      } else if !v[0] && expand.Count? {
        RevealShowsOnly(v[1..], Count(expand.n - 1), i - 1);
      } else {
        RevealShowsOnly(v[1..], expand, i - 1);
      }
    } else {
      assert v[..0] == [];
      if expand.Count? && expand.n == 0 && !v[0] { RevealNone(v); }
    }
  }

  /** "More" reduces the hidden children by n (or to none); after 'all' the
      button hides. */
  lemma {:induction false} RevealCount(v: seq<bool>, expand: Expand)
    ensures expand.All? ==> HiddenCount(Reveal(v, expand)) == 0 && AllVisible(Reveal(v, expand))
    ensures expand.Count? ==> HiddenCount(Reveal(v, expand)) == if HiddenCount(v) <= expand.n then 0 else HiddenCount(v) - expand.n
    decreases |v|
  {
    if v != [] {
      var r := Reveal(v, expand);
      if v[0] || expand.All? || expand.n > 0 {
        var e' := if v[0] || expand.All? then expand else Count(expand.n - 1);
        RevealCount(v[1..], e');
        assert r[1..] == Reveal(v[1..], e');
        if expand.All? {
          assert forall i :: 1 <= i < |r| ==> r[i] == r[1..][i - 1];
        }
      } else {
        RevealNone(v);
      }
    }
  }

  /** A limited list of more children than the limit, all visible at first,
      shows exactly `limit` of them and hides limit.. onwards; one "More"
      click with 'all' then shows every child. */
  lemma LimitThenExpandAll(n: nat, limit: nat)
    requires n > limit
    ensures var v := seq(n, i => i < limit);
      HiddenCount(v) == n - limit && AllVisible(Reveal(v, All))
  {
    var v := seq(n, i => i < limit);
    RevealCount(v, All);
    HiddenCountFrom(v, limit);
  }

  /** A visibility list visible up to k and hidden from k on hides |v| - k. */
  lemma {:induction false} HiddenCountFrom(v: seq<bool>, k: nat)
    requires k <= |v|
    requires forall i :: 0 <= i < |v| ==> v[i] == (i < k)
    ensures HiddenCount(v) == |v| - k
    decreases |v|
  {
    if v != [] {
      if k > 0 {
        HiddenCountFrom(v[1..], k - 1);
      } else {
        HiddenCountFrom(v[1..], 0);
      }
    }
  }

  // ---------------------------------------------------------------------
  // progressBar.setProgress

  /** The progress bar's rendered state: the bar's width style, its
      aria-valuenow, the percentage text and the message, plus the calls
      made to updateCallback. */
  class ProgressBar {
    const hasCallback: bool
    var width: string
    var valueNow: string
    var percentage: string
    var message: string
    var callbacks: seq<(int, string)>

    /** new progressBar(id, updateCallback): aria-valuenow 0, no width, no
        percentage text, a non-breaking space as message. */
    constructor (hasCallback: bool)
      ensures this.hasCallback == hasCallback
      ensures width == "" && valueNow == "0" && percentage == "" && message == "&nbsp;" && callbacks == []
    {
      this.hasCallback := hasCallback;
      width := "";
      valueNow := "0";
      percentage := "";
      message := "&nbsp;";
      callbacks := [];
    }

    /** setProgress(percentage, message). */
    method SetProgress(p: int, msg: string)
      modifies this
      ensures (width, valueNow, percentage) == ProgressFields(old(width), old(valueNow), old(percentage), p)
      ensures message == msg
      ensures callbacks == old(callbacks) + (if hasCallback then [(p, msg)] else [])
    {
      if p >= 0 && p <= 100 {
        width := IntToString(p) + "%";
        valueNow := IntToString(p);
        percentage := IntToString(p) + "%";
      }
      message := msg;
      if hasCallback {
        callbacks := callbacks + [(p, msg)];
      }
    }
  }

  /** The width, aria-valuenow and percentage text after setProgress(p). */
  function ProgressFields(width: string, valueNow: string, percentage: string, p: int): (string, string, string) {
    if 0 <= p <= 100 then (IntToString(p) + "%", IntToString(p), IntToString(p) + "%")
    else (width, valueNow, percentage)
  }

  /** An out-of-range percentage leaves the bar as it was; an in-range one
      is shown both as width and text, and aria-valuenow reads back as it. */
  lemma ProgressBounds(width: string, valueNow: string, percentage: string, p: int)
    ensures !(0 <= p <= 100) ==> ProgressFields(width, valueNow, percentage, p) == (width, valueNow, percentage)
    ensures 0 <= p <= 100 ==>
      var (w, v, t) := ProgressFields(width, valueNow, percentage, p);
      w == t && w == v + "%" && ParseInt(v) == Some(p)
  {
    ParseIntOfIntToString(p);
  }
}
