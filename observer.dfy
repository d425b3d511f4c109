/** The hook mechanism of the consent tracker. Other scripts call the tracker
    namespace as a function; each call pushes its argument list onto a queue.
    When the tracker reaches a hook point it selects, in queue order, the
    functions of the entries that start with the hook's name, and runs each
    through a fresh observer object (subscribe, fire, unsubscribe). */
module Observer {

  /** One argument of a namespace call: a string, a function (known by an
      identity), or anything else. */
  datatype Arg = Str(s: string) | Fn(id: nat) | Other

  /** An argument list [name, handler, ...] registering a handler for `name`. */
  predicate IsEntryFor(item: seq<Arg>, name: string) {
    |item| >= 2 && item[0] == Str(name) && item[1].Fn?
  }

  /** The handlers registered for `name`, in queue order. */
  function Selected(queue: seq<seq<Arg>>, name: string): (hs: seq<nat>)
    decreases |queue|
    ensures |hs| <= |queue|
  {
    if queue == [] then []
    else
      var last := queue[|queue| - 1];
      Selected(queue[..|queue| - 1], name) + (if IsEntryFor(last, name) then [last[1].id] else [])
  }

  /** Selection distributes over concatenation of queues: a later registration
      can only add handlers after the ones already selected. */
  lemma {:induction false} SelectedAppend(q1: seq<seq<Arg>>, q2: seq<seq<Arg>>, name: string)
    ensures Selected(q1 + q2, name) == Selected(q1, name) + Selected(q2, name)
    decreases |q2|
  {
    if q2 == [] {
      assert q1 + q2 == q1;
    } else {
      var q2' := q2[..|q2| - 1];
      assert (q1 + q2)[..|q1 + q2| - 1] == q1 + q2';
      SelectedAppend(q1, q2', name);
    }
  }

  /** A handler is selected exactly when some entry of the queue registers it
      under that name. */
  lemma {:induction false} SelectedMembers(queue: seq<seq<Arg>>, name: string, h: nat)
    ensures h in Selected(queue, name) <==>
      exists i :: 0 <= i < |queue| && IsEntryFor(queue[i], name) && queue[i][1].id == h
    decreases |queue|
  {
    if queue != [] {
      var init := queue[..|queue| - 1];
      SelectedMembers(init, name, h);
      if exists i :: 0 <= i < |init| && IsEntryFor(init[i], name) && init[i][1].id == h {
        var i :| 0 <= i < |init| && IsEntryFor(init[i], name) && init[i][1].id == h;
        assert queue[i] == init[i];
      }
      if exists i :: 0 <= i < |queue| && IsEntryFor(queue[i], name) && queue[i][1].id == h {
        var i :| 0 <= i < |queue| && IsEntryFor(queue[i], name) && queue[i][1].id == h;
        if i < |init| { assert init[i] == queue[i]; }
      }
    }
  }

  /** filterQueue(name): the loop over the queue collecting handlers. */
  method FilterQueue(queue: seq<seq<Arg>>, name: string) returns (handlers: seq<nat>)
    ensures handlers == Selected(queue, name)
  {
    handlers := [];
    var i := 0;
    while i < |queue|
      invariant 0 <= i <= |queue|
      invariant handlers == Selected(queue[..i], name)
    {
      var item := queue[i];
      if |item| > 0 {
        if |item| >= 2 && item[0].Str? && item[1].Fn? {
          if item[0].s == name {
            handlers := handlers + [item[1].id];
          }
        }
      }
      assert queue[..i + 1][..i] == queue[..i];
      i := i + 1;
    }
    assert queue[..i] == queue;
  }

  /** handlers.filter(item => item !== fn), keeping the order of the rest. */
  function Without(hs: seq<nat>, fn: nat): (r: seq<nat>)
    decreases |hs|
  {
    if hs == [] then []
    else (if hs[0] == fn then [] else [hs[0]]) + Without(hs[1..], fn)
  }

  /** Unsubscribing removes every copy of the handler and nothing else. */
  lemma {:induction false} WithoutMembers(hs: seq<nat>, fn: nat, x: nat)
    ensures x in Without(hs, fn) <==> x in hs && x != fn
    decreases |hs|
  {
    if hs != [] {
      WithoutMembers(hs[1..], fn, x);
      assert x in hs <==> x == hs[0] || x in hs[1..] by {
        assert hs == [hs[0]] + hs[1..];
      }
    }
  }

  /** Subscribing a handler and unsubscribing it again restores a list that
      did not hold it. */
  lemma {:induction false} WithoutSubscribed(hs: seq<nat>, fn: nat)
    requires fn !in hs
    ensures Without(hs + [fn], fn) == hs
    decreases |hs|
  {
    if hs == [] {
      assert [fn][1..] == [];
    } else {
      assert (hs + [fn])[1..] == hs[1..] + [fn];
      WithoutSubscribed(hs[1..], fn);
      assert hs == [hs[0]] + hs[1..];
    }
  }

  /** One observer object: the list of subscribed handlers. */
  class EventObserver {
    var handlers: seq<nat>

    constructor ()
      ensures handlers == []
    {
      handlers := [];
    }

    method Subscribe(fn: nat)
      modifies this
      ensures handlers == old(handlers) + [fn]
    {
      handlers := handlers + [fn];
    }

    method Unsubscribe(fn: nat)
      modifies this
      ensures handlers == Without(old(handlers), fn)
    {
      handlers := Without(handlers, fn);
    }

    /** fire(o): every subscribed handler is called, in order; the result is
        the list of calls. */
    method Fire() returns (called: seq<nat>)
      ensures called == handlers
    {
      called := handlers;
    }
  }
}
