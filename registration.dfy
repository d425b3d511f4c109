/** The registration analytics behaviour: for each group of tracked controls
    one parameters record is created and shared by the group's click
    handlers, each click overwrites its title and source and emits it; a
    keydown listener emits close events on Escape; and the multistep form's
    step names map to event titles. `_mz.emit` and goog_report_conversion
    are recorded as calls. */
module Registration {
  import opened Common

  /** The _mze event constants the handlers emit. */
  datatype EventType = Click | RegisterSuccess | Register | Login | Close | Submit

  /** The event a group key binds, None for a key the switch ignores. */
  function GroupEvent(key: string): (r: Option<EventType>)
    ensures r.Some? <==> key in {"click", "register_success", "register", "login", "close", "submit"}
  {
    if key == "click" then Some(Click)
    else if key == "register_success" then Some(RegisterSuccess)
    else if key == "register" then Some(Register)
    else if key == "login" then Some(Login)
    else if key == "close" then Some(Close)
    else if key == "submit" then Some(Submit)
    else None
  }

  /** A tracked control: its selector and the optional title and source. */
  datatype Entry = Entry(selector: string, eventTitle: Option<string>, eventSource: Option<string>)

  /** The parameters as they are when emitted. */
  datatype Params = Params(eventTitle: string, eventSource: string, viewType: string)

  datatype Call = Emit(event: EventType, params: Params) | ReportConversion

  /** `(typeof x !== "undefined") ? x : ""`. */
  function OrEmpty(x: Option<string>): string {
    if x.Some? then x.value else ""
  }

  /** The calls a click on a control of the group makes, given the record's
      view type: the conversion report first for register_success, then the
      emission of the record with the entry's title and source. */
  function ClickCalls(event: EventType, e: Entry, viewType: string): seq<Call> {
    (if event == RegisterSuccess then [ReportConversion] else [])
    + [Emit(event, Params(OrEmpty(e.eventTitle), OrEmpty(e.eventSource), viewType))]
  }

  /** The parameters record of one group. */
  class Parameters {
    var eventTitle: string
    var eventSource: string
    var viewType: string

    constructor ()
      ensures eventTitle == "" && eventSource == "" && viewType == "modal"
    {
      eventTitle := "";
      eventSource := "";
      viewType := "modal";
    }
  }

  /** An element of the page, by identity. */
  type Element = nat

  /** `$(selector, context)`: the elements of the attached context that a
      selector matches, in document order. */
  type Query = string -> seq<Element>

  /** A click handler bound to one element, closing over its entry and its
      group's record. */
  datatype Handler = Handler(groupKey: string, event: EventType, entry: Entry, element: Element, params: Parameters)

  /** A binding: group key, event, entry and the element it is bound on. */
  type Binding = (string, EventType, Entry, Element)

  /** The groups of `events`, in order; the keys of a JavaScript object are distinct. */
  predicate DistinctGroups(groups: seq<(string, seq<Entry>)>) {
    forall i, j :: 0 <= i < j < |groups| ==> groups[i].0 != groups[j].0
  }

  /** `.once("mze")` on a matched set: the elements not marked yet, each
      once, in order (the set marks them as it goes). */
  function Once(marked: set<Element>, els: seq<Element>): seq<Element>
    decreases |els|
  {
    if els == [] then []
    else if els[0] in marked then Once(marked, els[1..])
    else [els[0]] + Once(marked + {els[0]}, els[1..])
  }

  /** `.on("click", …)` on the elements: one binding of the entry per element. */
  function BindEach(key: string, ev: EventType, e: Entry, els: seq<Element>): (r: seq<Binding>)
    ensures |r| == |els|
  {
    seq(|els|, k requires 0 <= k < |els| => (key, ev, e, els[k]))
  }

  /** The bindings attach adds: for every entry of a known group, one per
      element its selector matches in the context that has not had a handler
      bound yet (`.once("mze")`), in order. */
  function NewBindings(bound: set<Element>, groups: seq<(string, seq<Entry>)>, q: Query): seq<Binding>
    decreases |groups|
  {
    if groups == [] then []
    else
      var (key, entries) := groups[0];
      match GroupEvent(key)
      case None => NewBindings(bound, groups[1..], q)
      case Some(ev) =>
        var here := GroupBindings(bound, key, ev, entries, q);
        here + NewBindings(bound + ElementsOf(here), groups[1..], q)
  }

  /** The bindings one group adds. */
  function GroupBindings(bound: set<Element>, key: string, ev: EventType, entries: seq<Entry>, q: Query): seq<Binding>
    decreases |entries|
  {
    if entries == [] then []
    else
      var here := BindEach(key, ev, entries[0], Once(bound, q(entries[0].selector)));
      here + GroupBindings(bound + ElementsOf(here), key, ev, entries[1..], q)
  }

  function ElementsOf(bs: seq<Binding>): set<Element> {
    set k | 0 <= k < |bs| :: bs[k].3
  }

  lemma ElementsOfAppend(a: seq<Binding>, b: seq<Binding>)
    ensures ElementsOf(a + b) == ElementsOf(a) + ElementsOf(b)
  {
    var r := a + b;
    forall x | x in ElementsOf(r) ensures x in ElementsOf(a) + ElementsOf(b) {
      var k :| 0 <= k < |r| && r[k].3 == x;
      if k >= |a| { assert r[k] == b[k - |a|]; }
    }
    forall x | x in ElementsOf(a) ensures x in ElementsOf(r) {
      var k :| 0 <= k < |a| && a[k].3 == x;
      assert r[k] == a[k];
    }
    forall x | x in ElementsOf(b) ensures x in ElementsOf(r) {
      var k :| 0 <= k < |b| && b[k].3 == x;
      assert r[k + |a|] == b[k];
    }
  }

  /** The binding a handler stands for. */
  function BindingOf(h: Handler): Binding {
    (h.groupKey, h.event, h.entry, h.element)
  }

  function Bindings(hs: seq<Handler>): (r: seq<Binding>)
    ensures |r| == |hs|
  {
    seq(|hs|, k requires 0 <= k < |hs| => BindingOf(hs[k]))
  }

  lemma BindingsAppend(a: seq<Handler>, b: seq<Handler>)
    ensures Bindings(a + b) == Bindings(a) + Bindings(b)
  {
    var l, r := Bindings(a + b), Bindings(a) + Bindings(b);
    forall k | 0 <= k < |l| ensures l[k] == r[k] {
      if k < |a| { assert (a + b)[k] == a[k]; } else { assert (a + b)[k] == b[k - |a|]; }
    }
  }

  /** The handlers `.on` binds for one entry, all sharing `parameters`. */
  function HandlersFor(key: string, ev: EventType, e: Entry, els: seq<Element>, parameters: Parameters): (r: seq<Handler>)
    ensures Bindings(r) == BindEach(key, ev, e, els)
    ensures forall k :: 0 <= k < |r| ==> r[k].params == parameters && r[k].groupKey == key
  {
    seq(|els|, k requires 0 <= k < |els| => Handler(key, ev, e, els[k], parameters))
  }

  /** The behaviour's state: the elements that already have a handler,
      the handlers, and the calls made so far. */
  class RegistrationEvents {
    var bound: set<Element>
    var handlers: seq<Handler>
    var calls: seq<Call>

    constructor ()
      ensures bound == {} && handlers == [] && calls == []
    {
      bound := {};
      handlers := [];
      calls := [];
    }

    /** Every group record still has the view type "modal". */
    predicate Valid()
      reads this, set k | 0 <= k < |handlers| :: handlers[k].params
    {
      forall k :: 0 <= k < |handlers| ==> handlers[k].params.viewType == "modal"
    }

    /** attach(context), with `q` the selector lookup in that context: one
        fresh record per group, one handler per matched element not yet
        bound. */
    method Attach(groups: seq<(string, seq<Entry>)>, q: Query)
      requires DistinctGroups(groups)
      requires Valid()
      modifies this
      ensures Valid()
      ensures calls == old(calls)
      ensures |handlers| >= |old(handlers)| && handlers[..|old(handlers)|] == old(handlers)
      ensures Bindings(handlers[|old(handlers)|..]) == NewBindings(old(bound), groups, q)
      ensures bound == old(bound) + ElementsOf(NewBindings(old(bound), groups, q))
      ensures forall i, j :: |old(handlers)| <= i < |handlers| && |old(handlers)| <= j < |handlers| ==>
        (handlers[i].params == handlers[j].params <==> handlers[i].groupKey == handlers[j].groupKey)
      ensures forall i :: |old(handlers)| <= i < |handlers| ==>
        fresh(handlers[i].params) && handlers[i].params.eventTitle == "" && handlers[i].params.eventSource == ""
    {
      ghost var records;
      var added, b;
      added, b, records := NewHandlers(bound, groups, q);
      handlers := handlers + added;
      bound := b;
      assert handlers[|old(handlers)|..] == added;
    }

    /** A click on handler k's element: overwrite the group record's title
        and source from the entry, then emit it (after the conversion
        report for register_success). */
    method Click(k: nat)
      requires k < |handlers| && Valid()
      modifies this, handlers[k].params
      ensures Valid()
      ensures bound == old(bound) && handlers == old(handlers)
      ensures handlers[k].params.eventTitle == OrEmpty(handlers[k].entry.eventTitle)
      ensures handlers[k].params.eventSource == OrEmpty(handlers[k].entry.eventSource)
      ensures calls == old(calls) + ClickCalls(handlers[k].event, handlers[k].entry, "modal")
    {
      var h := handlers[k];
      h.params.eventTitle := OrEmpty(h.entry.eventTitle);
      h.params.eventSource := OrEmpty(h.entry.eventSource);
      if h.event == RegisterSuccess {
        calls := calls + [ReportConversion];
      }
      calls := calls + [Emit(h.event, Params(h.params.eventTitle, h.params.eventSource, h.params.viewType))];
    }
  }

  /** Each handler uses the record made for its group. */
  predicate Shares(added: seq<Handler>, records: map<string, Parameters>) {
    forall i :: 0 <= i < |added| ==> added[i].groupKey in records && added[i].params == records[added[i].groupKey]
  }

  /** Different groups have different records. */
  predicate Injective(records: map<string, Parameters>) {
    forall k1, k2 :: k1 in records && k2 in records && k1 != k2 ==> records[k1] != records[k2]
  }

  /** Every record still holds the initial parameters. */
  predicate Initial(records: map<string, Parameters>)
    reads records.Values
  {
    forall k :: k in records ==> records[k].eventTitle == "" && records[k].eventSource == "" && records[k].viewType == "modal"
  }

  /** Adding a group with a new key and record keeps the three properties. */
  lemma RecordsExtend(added: seq<Handler>, more: seq<Handler>, records: map<string, Parameters>, key: string, p: Parameters)
    requires Shares(added, records) && Injective(records) && key !in records && p !in records.Values
    requires forall k :: 0 <= k < |more| ==> more[k].params == p && more[k].groupKey == key
    ensures Shares(added + more, records[key := p]) && Injective(records[key := p])
  {
    var r := added + more;
    forall i | 0 <= i < |r| ensures r[i].groupKey in records[key := p] && r[i].params == records[key := p][r[i].groupKey] {
      if i >= |added| { assert r[i] == more[i - |added|]; } else { assert r[i] == added[i]; }
    }
  }

  /** The loop of attach over the groups: the new handlers, the elements
      bound afterwards, and (as a ghost) the fresh record made for each
      group. */
  method NewHandlers(bound: set<Element>, groups: seq<(string, seq<Entry>)>, q: Query)
    returns (added: seq<Handler>, b: set<Element>, ghost records: map<string, Parameters>)
    requires DistinctGroups(groups)
    ensures Bindings(added) == NewBindings(bound, groups, q)
    ensures b == bound + ElementsOf(NewBindings(bound, groups, q))
    ensures Shares(added, records) && Injective(records) && Initial(records)
    ensures forall k :: k in records ==> fresh(records[k])
  {
    added := [];
    b := bound;
    records := map[];
    var g := 0;
    while g < |groups|
      invariant 0 <= g <= |groups|
      invariant NewBindings(bound, groups, q) == Bindings(added) + NewBindings(b, groups[g..], q)
      invariant b == bound + ElementsOf(Bindings(added))
      invariant records.Keys == GroupKeys(groups[..g])
      invariant Shares(added, records) && Injective(records) && Initial(records)
      invariant forall k :: k in records ==> fresh(records[k])
    {
      added, b, records := NextGroup(bound, groups, q, g, added, b, records);
      g := g + 1;
    }
    assert groups[g..] == [];
  }

  /** One iteration of attach's loop: group g's record and handlers. */
  method NextGroup(bound: set<Element>, groups: seq<(string, seq<Entry>)>, q: Query, g: nat,
                   added: seq<Handler>, b: set<Element>, ghost records: map<string, Parameters>)
    returns (added': seq<Handler>, b': set<Element>, ghost records': map<string, Parameters>)
    requires DistinctGroups(groups) && g < |groups|
    requires NewBindings(bound, groups, q) == Bindings(added) + NewBindings(b, groups[g..], q)
    requires b == bound + ElementsOf(Bindings(added))
    requires records.Keys == GroupKeys(groups[..g])
    requires Shares(added, records) && Injective(records) && Initial(records)
    ensures NewBindings(bound, groups, q) == Bindings(added') + NewBindings(b', groups[g + 1..], q)
    ensures b' == bound + ElementsOf(Bindings(added'))
    ensures records'.Keys == GroupKeys(groups[..g + 1])
    ensures Shares(added', records') && Injective(records') && Initial(records')
    ensures forall k :: k in records' ==> k in records || fresh(records'[k])
    ensures forall k :: k in records ==> k in records' && records'[k] == records[k]
  {
    var key := groups[g].0;
    GroupKeysStep(groups, g);
    var ev := GroupEvent(key);
    var parameters := new Parameters();
    NewBindingsStep(b, groups, q, g);
    var more: seq<Handler> := [];
    b' := b;
    if ev.Some? {
      more, b' := GroupHandlers(b, parameters, key, ev.value, groups[g].1, q);
      BindingsAppend(added, more);
      ElementsOfAppend(Bindings(added), Bindings(more));
      AppendAssoc(Bindings(added), Bindings(more), NewBindings(b', groups[g + 1..], q));
    } else {
      assert added + more == added;
    }
    RecordsExtend(added, more, records, key, parameters);
    added' := added + more;
    records' := records[key := parameters];
  }

  /** The handlers of one group, all sharing `parameters`, and the
      elements bound afterwards. */
  method GroupHandlers(bound: set<Element>, parameters: Parameters, key: string, ev: EventType, entries: seq<Entry>, q: Query)
    returns (added: seq<Handler>, bound': set<Element>)
    ensures Bindings(added) == GroupBindings(bound, key, ev, entries, q)
    ensures bound' == bound + ElementsOf(Bindings(added))
    ensures forall k :: 0 <= k < |added| ==> added[k].params == parameters && added[k].groupKey == key
  {
    added := [];
    bound' := bound;
    var i := 0;
    while i < |entries|
      invariant 0 <= i <= |entries|
      invariant GroupBindings(bound, key, ev, entries, q) == Bindings(added) + GroupBindings(bound', key, ev, entries[i..], q)
      invariant bound' == bound + ElementsOf(Bindings(added))
      invariant forall k :: 0 <= k < |added| ==> added[k].params == parameters && added[k].groupKey == key
    {
      var e := entries[i];
      var more := HandlersFor(key, ev, e, Once(bound', q(e.selector)), parameters);
      GroupBindingsStep(bound', key, ev, entries, q, i);
      BindingsAppend(added, more);
      ElementsOfAppend(Bindings(added), Bindings(more));
      AppendAssoc(Bindings(added), Bindings(more), GroupBindings(bound' + ElementsOf(Bindings(more)), key, ev, entries[i + 1..], q));
      added := added + more;
      bound' := bound' + ElementsOf(Bindings(more));
      i := i + 1;
    }
  }

  /** GroupBindings from entry i on: entry i's bindings, then the rest. */
  lemma GroupBindingsStep(bound: set<Element>, key: string, ev: EventType, entries: seq<Entry>, q: Query, i: nat)
    requires i < |entries|
    ensures var here := BindEach(key, ev, entries[i], Once(bound, q(entries[i].selector)));
      GroupBindings(bound, key, ev, entries[i..], q)
      == here + GroupBindings(bound + ElementsOf(here), key, ev, entries[i + 1..], q)
  {
    assert entries[i..][0] == entries[i] && entries[i..][1..] == entries[i + 1..];
  }

  /** The keys up to group g grow by group g's key, which is new. */
  lemma GroupKeysStep(groups: seq<(string, seq<Entry>)>, g: nat)
    requires DistinctGroups(groups) && g < |groups|
    ensures GroupKeys(groups[..g + 1]) == GroupKeys(groups[..g]) + {groups[g].0}
    ensures groups[g].0 !in GroupKeys(groups[..g])
  {
    assert groups[..g + 1] == groups[..g] + [groups[g]];
    forall k | 0 <= k < g ensures groups[..g][k].0 != groups[g].0 {
      assert groups[..g][k] == groups[k];
    }
  }

  /** NewBindings from group g on: group g's bindings, then the rest. */
  lemma NewBindingsStep(bound: set<Element>, groups: seq<(string, seq<Entry>)>, q: Query, g: nat)
    requires g < |groups|
    ensures GroupEvent(groups[g].0).None? ==> NewBindings(bound, groups[g..], q) == NewBindings(bound, groups[g + 1..], q)
    ensures GroupEvent(groups[g].0).Some? ==>
      var here := GroupBindings(bound, groups[g].0, GroupEvent(groups[g].0).value, groups[g].1, q);
      NewBindings(bound, groups[g..], q) == here + NewBindings(bound + ElementsOf(here), groups[g + 1..], q)
  {
    assert groups[g..][0] == groups[g] && groups[g..][1..] == groups[g + 1..];
  }

  function GroupKeys(groups: seq<(string, seq<Entry>)>): set<string> {
    set k | 0 <= k < |groups| :: groups[k].0
  }

  /** A click emits exactly one event, of its group's type, carrying the
      entry's title and source ("" when missing) and the view type; the
      conversion is reported only for register_success. */
  lemma ClickEmitsEntry(event: EventType, e: Entry, viewType: string)
    ensures var c := ClickCalls(event, e, viewType);
      c[|c| - 1] == Emit(event, Params(OrEmpty(e.eventTitle), OrEmpty(e.eventSource), viewType))
      && (ReportConversion in c <==> event == RegisterSuccess)
      && (forall k :: 0 <= k < |c| - 1 ==> c[k] == ReportConversion)
      && (e.eventTitle.None? ==> c[|c| - 1].params.eventTitle == "")
      && (e.eventSource.None? ==> c[|c| - 1].params.eventSource == "")
  {
  }

  /** No binding is on an element in `bound`. */
  predicate AvoidsBound(bs: seq<Binding>, bound: set<Element>) {
    forall k :: 0 <= k < |bs| ==> bs[k].3 !in bound
  }

  /** No two bindings are on the same element. */
  predicate DistinctElements(bs: seq<Binding>) {
    forall i, j :: 0 <= i < j < |bs| ==> bs[i].3 != bs[j].3
  }

  /** Joining two lists of bindings on distinct elements, the second
      avoiding the first's, keeps them on distinct elements. */
  lemma JoinDistinct(a: seq<Binding>, b: seq<Binding>, bound: set<Element>)
    requires AvoidsBound(a, bound) && DistinctElements(a)
    requires AvoidsBound(b, bound + ElementsOf(a)) && DistinctElements(b)
    ensures AvoidsBound(a + b, bound) && DistinctElements(a + b)
  {
    var r := a + b;
    forall i, j | 0 <= i < j < |r| ensures r[i].3 != r[j].3 {
      if i >= |a| {
        assert r[i] == b[i - |a|] && r[j] == b[j - |a|];
      } else if j >= |a| {
        assert r[j] == b[j - |a|];
        assert r[i].3 in ElementsOf(a);
      }
    }
    forall k | 0 <= k < |r| ensures r[k].3 !in bound {
      if k >= |a| { assert r[k] == b[k - |a|]; }
    }
  }

  /** `.once` yields matched elements that are not marked, each once. */
  lemma {:induction false} OnceFresh(marked: set<Element>, els: seq<Element>)
    ensures forall k :: 0 <= k < |Once(marked, els)| ==> Once(marked, els)[k] !in marked && Once(marked, els)[k] in els
    ensures forall i, j :: 0 <= i < j < |Once(marked, els)| ==> Once(marked, els)[i] != Once(marked, els)[j]
    decreases |els|
  {
    if els != [] && els[0] in marked {
      OnceFresh(marked, els[1..]);
      var o := Once(marked, els);
      forall k | 0 <= k < |o| ensures o[k] in els { assert o[k] in els[1..]; }
    } else if els != [] {
      var x := els[0];
      OnceFresh(marked + {x}, els[1..]);
      var o := Once(marked, els);
      var rest := Once(marked + {x}, els[1..]);
      assert o == [x] + rest;
      forall i, j | 0 <= i < j < |o| ensures o[i] != o[j] {
        if i == 0 { assert o[j] == rest[j - 1]; } else { assert o[i] == rest[i - 1] && o[j] == rest[j - 1]; }
      }
      forall k | 0 <= k < |o| ensures o[k] !in marked && o[k] in els {
        if k > 0 { assert o[k] == rest[k - 1]; assert rest[k - 1] in els[1..]; }
      }
    }
  }

  /** After `.once` every matched element is marked or yielded, and
      nothing is yielded when all are marked already. */
  lemma {:induction false} OnceCovers(marked: set<Element>, els: seq<Element>)
    ensures forall k :: 0 <= k < |els| ==> els[k] in marked || els[k] in Once(marked, els)
    ensures (forall k :: 0 <= k < |els| ==> els[k] in marked) ==> Once(marked, els) == []
    decreases |els|
  {
    if els != [] {
      var x := els[0];
      var m1 := if x in marked then marked else marked + {x};
      OnceCovers(m1, els[1..]);
      forall k | 0 <= k < |els| ensures els[k] in marked || els[k] in Once(marked, els) {
        if k > 0 { assert els[k] == els[1..][k - 1]; }
      }
      if forall k :: 0 <= k < |els| ==> els[k] in marked {
        assert forall k :: 0 <= k < |els[1..]| ==> els[1..][k] in marked by {
          forall k | 0 <= k < |els[1..]| ensures els[1..][k] in marked { assert els[1..][k] == els[k + 1]; }
        }
      }
    }
  }

  /** The bindings `.once(…).on(…)` adds for one entry. */
  lemma EntryBindings(bound: set<Element>, key: string, ev: EventType, e: Entry, els: seq<Element>)
    ensures var here := BindEach(key, ev, e, Once(bound, els));
      AvoidsBound(here, bound) && DistinctElements(here)
      && (forall k :: 0 <= k < |els| ==> els[k] in bound + ElementsOf(here))
      && ((forall k :: 0 <= k < |els| ==> els[k] in bound) ==> here == [])
  {
    var o := Once(bound, els);
    var here := BindEach(key, ev, e, o);
    OnceFresh(bound, els);
    OnceCovers(bound, els);
    forall k | 0 <= k < |els| ensures els[k] in bound + ElementsOf(here) {
      if els[k] !in bound {
        var j :| 0 <= j < |o| && o[j] == els[k];
        assert here[j].3 == els[k];
      }
    }
  }

  /** An element gets at most one handler: no binding attach adds repeats
      an element, and none is on an element already bound, even when
      several selectors match it. */
  lemma {:induction false} NewBindingsOnce(bound: set<Element>, groups: seq<(string, seq<Entry>)>, q: Query)
    ensures AvoidsBound(NewBindings(bound, groups, q), bound)
    ensures DistinctElements(NewBindings(bound, groups, q))
    decreases |groups|
  {
    if groups != [] {
      var (key, entries) := groups[0];
      if GroupEvent(key).Some? {
        var here := GroupBindings(bound, key, GroupEvent(key).value, entries, q);
        GroupBindingsOnce(bound, key, GroupEvent(key).value, entries, q);
        NewBindingsOnce(bound + ElementsOf(here), groups[1..], q);
        JoinDistinct(here, NewBindings(bound + ElementsOf(here), groups[1..], q), bound);
      } else {
        NewBindingsOnce(bound, groups[1..], q);
      }
    }
  }

  lemma {:induction false} GroupBindingsOnce(bound: set<Element>, key: string, ev: EventType, entries: seq<Entry>, q: Query)
    ensures AvoidsBound(GroupBindings(bound, key, ev, entries, q), bound)
    ensures DistinctElements(GroupBindings(bound, key, ev, entries, q))
    decreases |entries|
  {
    if entries != [] {
      var here := BindEach(key, ev, entries[0], Once(bound, q(entries[0].selector)));
      EntryBindings(bound, key, ev, entries[0], q(entries[0].selector));
      GroupBindingsOnce(bound + ElementsOf(here), key, ev, entries[1..], q);
      JoinDistinct(here, GroupBindings(bound + ElementsOf(here), key, ev, entries[1..], q), bound);
    }
  }

  /** Every element matched in the context by an entry of a known group is in B. */
  predicate MatchedIn(groups: seq<(string, seq<Entry>)>, q: Query, B: set<Element>) {
    forall g, k, i ::
      (0 <= g < |groups| && GroupEvent(groups[g].0).Some? && 0 <= k < |groups[g].1| && 0 <= i < |q(groups[g].1[k].selector)|)
      ==> q(groups[g].1[k].selector)[i] in B
  }

  /** After a group is attached every element its entries match is bound. */
  lemma {:induction false} GroupBindingsCover(bound: set<Element>, key: string, ev: EventType, entries: seq<Entry>, q: Query)
    ensures forall k, i :: 0 <= k < |entries| && 0 <= i < |q(entries[k].selector)| ==>
      q(entries[k].selector)[i] in bound + ElementsOf(GroupBindings(bound, key, ev, entries, q))
    decreases |entries|
  {
    if entries != [] {
      var here := BindEach(key, ev, entries[0], Once(bound, q(entries[0].selector)));
      var b1 := bound + ElementsOf(here);
      var rest := GroupBindings(b1, key, ev, entries[1..], q);
      EntryBindings(bound, key, ev, entries[0], q(entries[0].selector));
      GroupBindingsCover(b1, key, ev, entries[1..], q);
      ElementsOfAppend(here, rest);
      assert bound + ElementsOf(GroupBindings(bound, key, ev, entries, q)) == b1 + ElementsOf(rest);
      forall k, i | 0 <= k < |entries| && 0 <= i < |q(entries[k].selector)|
        ensures q(entries[k].selector)[i] in b1 + ElementsOf(rest)
      {
        if k > 0 { assert entries[k] == entries[1..][k - 1]; }
      }
    }
  }

  /** After attach every element that an entry of a known group matches in
      the context is bound: an element already bound stays so, and one not
      yet bound (content new to this context) gets a handler now. */
  lemma {:induction false} NewBindingsCover(bound: set<Element>, groups: seq<(string, seq<Entry>)>, q: Query)
    ensures MatchedIn(groups, q, bound + ElementsOf(NewBindings(bound, groups, q)))
    decreases |groups|
  {
    if groups != [] {
      var (key, entries) := groups[0];
      var b1 := bound;
      var here: seq<Binding> := [];
      if GroupEvent(key).Some? {
        here := GroupBindings(bound, key, GroupEvent(key).value, entries, q);
        GroupBindingsCover(bound, key, GroupEvent(key).value, entries, q);
        b1 := bound + ElementsOf(here);
      }
      var rest := NewBindings(b1, groups[1..], q);
      NewBindingsCover(b1, groups[1..], q);
      assert NewBindings(bound, groups, q) == here + rest;
      ElementsOfAppend(here, rest);
      var B := bound + ElementsOf(NewBindings(bound, groups, q));
      assert B == b1 + ElementsOf(rest);
      forall g, k, i | 0 <= g < |groups| && GroupEvent(groups[g].0).Some? && 0 <= k < |groups[g].1|
        && 0 <= i < |q(groups[g].1[k].selector)|
        ensures q(groups[g].1[k].selector)[i] in B
      {
        if g > 0 { assert groups[g] == groups[1..][g - 1]; }
      }
    }
  }

  /** With every matched element already bound, attach adds nothing. */
  lemma {:induction false} NewBindingsNone(bound: set<Element>, groups: seq<(string, seq<Entry>)>, q: Query)
    requires MatchedIn(groups, q, bound)
    ensures NewBindings(bound, groups, q) == []
    decreases |groups|
  {
    if groups != [] {
      var (key, entries) := groups[0];
      assert MatchedIn(groups[1..], q, bound) by {
        forall g, k, i | 0 <= g < |groups[1..]| && GroupEvent(groups[1..][g].0).Some? && 0 <= k < |groups[1..][g].1|
          && 0 <= i < |q(groups[1..][g].1[k].selector)|
          ensures q(groups[1..][g].1[k].selector)[i] in bound
        {
          assert groups[1..][g] == groups[g + 1];
        }
      }
      if GroupEvent(key).Some? {
        assert forall k, i :: 0 <= k < |entries| && 0 <= i < |q(entries[k].selector)| ==> q(entries[k].selector)[i] in bound by {
          assert groups[0] == (key, entries);
        }
        GroupBindingsNone(bound, key, GroupEvent(key).value, entries, q);
        assert ElementsOf([]) == {};
        assert bound + {} == bound;
      }
      NewBindingsNone(bound, groups[1..], q);
    }
  }

  lemma {:induction false} GroupBindingsNone(bound: set<Element>, key: string, ev: EventType, entries: seq<Entry>, q: Query)
    requires forall k, i :: 0 <= k < |entries| && 0 <= i < |q(entries[k].selector)| ==> q(entries[k].selector)[i] in bound
    ensures GroupBindings(bound, key, ev, entries, q) == []
    decreases |entries|
  {
    if entries != [] {
      EntryBindings(bound, key, ev, entries[0], q(entries[0].selector));
      assert ElementsOf([]) == {};
      assert bound + {} == bound;
      forall k, i | 0 <= k < |entries[1..]| && 0 <= i < |q(entries[1..][k].selector)|
        ensures q(entries[1..][k].selector)[i] in bound
      {
        assert entries[1..][k] == entries[k + 1];
      }
      GroupBindingsNone(bound, key, ev, entries[1..], q);
    }
  }

  /** `.once("mze")`: attaching again on the same context binds nothing. */
  lemma AttachTwiceBindsNothing(bound: set<Element>, groups: seq<(string, seq<Entry>)>, q: Query)
    ensures NewBindings(bound + ElementsOf(NewBindings(bound, groups, q)), groups, q) == []
  {
    NewBindingsCover(bound, groups, q);
    NewBindingsNone(bound + ElementsOf(NewBindings(bound, groups, q)), groups, q);
  }

  // ---------------------------------------------------------------------
  // Escape key and step names

  /** convert_stepname_to_eventtitle; None is an absent data-step. */
  function StepTitle(step: Option<string>): string {
    if step == Some("welcome") then "identify-provider"
    else if step == Some("registration") then "registration"
    else if step == Some("profile") then "segment"
    else if step == Some("extra_profile") then "extra-profile"
    else if step == Some("newsletters") then "newsletters"
    else if step == Some("guide_download") then "opt-in"
    else if step == Some("student_confirmation") then "guide-download"
    else "abandon-multistep"
  }

  const KnownSteps: seq<string> := ["welcome", "registration", "profile", "extra_profile", "newsletters", "guide_download", "student_confirmation"]
  const StepTitles: seq<string> := ["identify-provider", "registration", "segment", "extra-profile", "newsletters", "opt-in", "guide-download"]

  /** The seven known steps map as listed, everything else (absent
      included) to 'abandon-multistep', which no known step produces. */
  lemma StepTitleTable(step: Option<string>)
    ensures forall k :: 0 <= k < |KnownSteps| ==> StepTitle(Some(KnownSteps[k])) == StepTitles[k]
    ensures (step.None? || step.value !in KnownSteps) <==> StepTitle(step) == "abandon-multistep"
  {
    forall k | 0 <= k < |KnownSteps| ensures StepTitle(Some(KnownSteps[k])) == StepTitles[k] {
      assert KnownSteps[k] in KnownSteps;
    }
  }

  /** The keydown listener: on Escape, 'abandon-login' when the login close
      control exists, then the multistep close with the step's title when
      that close control exists. */
  function EscapeCalls(key: string, loginClose: bool, multistepClose: bool, step: Option<string>): seq<Call> {
    if key != "Escape" then []
    else
      (if loginClose then [Emit(Close, Params("abandon-login", "login-process", "modal"))] else [])
      + (if multistepClose then [Emit(Close, Params(StepTitle(step), "registration-process", "modal"))] else [])
  }

  /** Each close is emitted iff Escape was pressed and its control exists,
      both may be, and only close events are emitted. */
  lemma EscapeMeaning(key: string, loginClose: bool, multistepClose: bool, step: Option<string>)
    ensures var c := EscapeCalls(key, loginClose, multistepClose, step);
      (Emit(Close, Params("abandon-login", "login-process", "modal")) in c <==> key == "Escape" && loginClose)
      && (Emit(Close, Params(StepTitle(step), "registration-process", "modal")) in c <==> key == "Escape" && multistepClose)
      && |c| == (if key == "Escape" then (if loginClose then 1 else 0) + (if multistepClose then 1 else 0) else 0)
      && (forall k :: 0 <= k < |c| ==> c[k].Emit? && c[k].event == Close && c[k].params.viewType == "modal")
  {
    StepTitleTable(step);
  }
}
