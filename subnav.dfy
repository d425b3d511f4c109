/** Drupal.behaviors.subNav.getStates / setStates: a small record of integer
    flags ({show_menu, user_closed}) kept as JSON in the cookie
    "Drupal.visitor.<name>". The record is an object the caller holds and
    setStates fills in place; the cookie jar is passed in and handed back. */
module SubNav {
  import opened Common
  import opened Json
  import opened Consent

  /** The record getStates returns when there is no cookie. */
  const DefaultStates: IntObject := [("show_menu", 1), ("user_closed", 0)]

  /** The values setStates supplies for missing keys, in the order it visits them. */
  const FillValues: IntObject := [("show_menu", 0), ("user_closed", 0)]

  function CookieName(name: string): string {
    "Drupal.visitor." + name
  }

  /** The cookie is absent, empty, or holds a JSON object of integers
      (anything else makes JSON.parse throw or yields a value outside the model). */
  predicate StatesReadable(jar: Jar, name: string) {
    var c := CookieName(name);
    c !in jar || jar[c].value == ""
    || (ParseIntObject(jar[c].value).Some? && DistinctKeys(ParseIntObject(jar[c].value).value))
  }

  /** getStates: the defaults when the cookie is absent or empty, otherwise
      the decoded record. */
  function GetStates(jar: Jar, name: string): (r: IntObject)
    requires StatesReadable(jar, name)
    ensures CookieName(name) !in jar ==> r == DefaultStates
    ensures DistinctKeys(r)
  {
    var c := CookieName(name);
    if c !in jar || jar[c].value == "" then DefaultStates else ParseIntObject(jar[c].value).value
  }

  /** The record after setStates: each key of `defaults` that is missing is
      added with its default value, at the end. */
  function FillDefaults(o: IntObject, defaults: IntObject): IntObject
    decreases |defaults|
  {
    if defaults == [] then o
    else
      var (k, v) := defaults[0];
      FillDefaults(if HasKey(o, k) then o else o + [(k, v)], defaults[1..])
  }

  /** The cookie setStates writes: seven days, path "/", no domain. */
  function StatesCookie(o: IntObject): Cookie {
    Cookie(StringifyIntObject(o), "/", "", Days(7))
  }

  /** A states record held by reference, as the JavaScript object is. */
  class StateRecord {
    var entries: IntObject

    constructor (entries: IntObject)
      ensures this.entries == entries
    {
      this.entries := entries;
    }

    /** `states[k] = v` for a key that may or may not exist yet. */
    method Set(k: string, v: int)
      modifies this
      ensures entries == Put(old(entries), k, v)
    {
      entries := Put(entries, k, v);
    }
  }

  /** setStates(states, name): fill in the missing keys, then write the cookie. */
  method SetStates(states: StateRecord, name: string, jar: Jar) returns (jar': Jar)
    modifies states
    ensures states.entries == FillDefaults(old(states.entries), FillValues)
    ensures jar' == jar[CookieName(name) := StatesCookie(states.entries)]
  {
    var i := 0;
    while i < |FillValues|
      invariant 0 <= i <= |FillValues|
      invariant FillDefaults(states.entries, FillValues[i..]) == FillDefaults(old(states.entries), FillValues)
    {
      assert FillValues[i..][1..] == FillValues[i + 1..];
      var (k, v) := FillValues[i];
      if Get(states.entries, k).None? {
        states.entries := states.entries + [(k, v)];
      }
      i := i + 1;
    }
    jar' := jar[CookieName(name) := StatesCookie(states.entries)];
  }

  /** The fill keeps every present value, adds the missing defaults, and
      keeps keys distinct. */
  lemma {:induction false} FillDefaultsMeaning(o: IntObject, defaults: IntObject, k: string)
    requires DistinctKeys(o)
    ensures DistinctKeys(FillDefaults(o, defaults))
    ensures HasKey(o, k) ==> Get(FillDefaults(o, defaults), k) == Get(o, k)
    ensures !HasKey(o, k) ==> Get(FillDefaults(o, defaults), k) == Get(defaults, k)
    decreases |defaults|
  {
    if defaults != [] {
      var (k0, v0) := defaults[0];
      var o1 := if HasKey(o, k0) then o else o + [(k0, v0)];
      if !HasKey(o, k0) {
        AppendNewKey(o, k0, v0, k);
      }
      FillDefaultsMeaning(o1, defaults[1..], k);
      assert HasKey(defaults, k) <==> k == k0 || HasKey(defaults[1..], k) by {
        if HasKey(defaults, k) { var i :| 0 <= i < |defaults| && defaults[i].0 == k; if i > 0 { assert defaults[1..][i - 1].0 == k; } }
        if HasKey(defaults[1..], k) { var i :| 0 <= i < |defaults[1..]| && defaults[1..][i].0 == k; assert defaults[i + 1].0 == k; }
      }
    }
  }

  /** Appending a key that is not present keeps keys distinct and makes it
      readable with the appended value. */
  lemma AppendNewKey(o: IntObject, k0: string, v0: int, k: string)
    requires DistinctKeys(o) && !HasKey(o, k0)
    ensures DistinctKeys(o + [(k0, v0)])
    ensures HasKey(o + [(k0, v0)], k) <==> HasKey(o, k) || k == k0
    ensures Get(o + [(k0, v0)], k) == if HasKey(o, k) then Get(o, k) else if k == k0 then Some(v0) else None
    decreases |o|
  {
    var r := o + [(k0, v0)];
    assert r[|o|].0 == k0;
    if o != [] {
      assert r[1..] == o[1..] + [(k0, v0)];
      assert DistinctKeys(o[1..]) && !HasKey(o[1..], k0) by {
        forall i | 0 <= i < |o[1..]| ensures o[1..][i].0 != k0 { assert o[1..][i] == o[i + 1]; }
        forall i, j | 0 <= i < j < |o[1..]| ensures o[1..][i].0 != o[1..][j].0 { assert o[1..][i] == o[i + 1] && o[1..][j] == o[j + 1]; }
      }
      AppendNewKey(o[1..], k0, v0, k);
      assert HasKey(o, k) <==> o[0].0 == k || HasKey(o[1..], k) by {
        if HasKey(o, k) { var i :| 0 <= i < |o| && o[i].0 == k; if i > 0 { assert o[1..][i - 1].0 == k; } }
        if HasKey(o[1..], k) { var i :| 0 <= i < |o[1..]| && o[1..][i].0 == k; assert o[i + 1].0 == k; }
      }
      assert r[0] == o[0];
    }
  }

  /** `o[k] = v` on a record with distinct keys: k now reads v, every other
      key reads as before, and keys stay distinct. */
  lemma {:induction false} PutMeaning(o: IntObject, k: string, v: int, k2: string)
    requires DistinctKeys(o)
    ensures DistinctKeys(Put(o, k, v))
    ensures Get(Put(o, k, v), k) == Some(v)
    ensures k2 != k ==> Get(Put(o, k, v), k2) == Get(o, k2)
    decreases |o|
  {
    if !HasKey(o, k) {
      AppendNewKey(o, k, v, k);
      AppendNewKey(o, k, v, k2);
    } else if o[0].0 == k {
      var r := Put(o, k, v);
      assert r == [(k, v)] + o[1..];
      forall i, j | 0 <= i < j < |r| ensures r[i].0 != r[j].0 {
        if i == 0 { assert r[j] == o[j]; } else { assert r[i] == o[i] && r[j] == o[j]; }
      }
      if k2 != k {
        assert Get(r, k2) == Get(o[1..], k2) && Get(o, k2) == Get(o[1..], k2) by {
          assert r[1..] == o[1..];
        }
      }
    } else {
      var t := o[1..];
      assert DistinctKeys(t) by {
        forall i, j | 0 <= i < j < |t| ensures t[i].0 != t[j].0 { assert t[i] == o[i + 1] && t[j] == o[j + 1]; }
      }
      PutMeaning(t, k, v, k2);
      var r := Put(o, k, v);
      assert r == [o[0]] + Put(t, k, v);
      assert r[1..] == Put(t, k, v);
      forall i | 0 <= i < |t| ensures t[i].0 != o[0].0 { assert t[i] == o[i + 1]; }
      assert !HasKey(t, o[0].0);
      PutKeys(t, k, v, o[0].0);
      forall i, j | 0 <= i < j < |r| ensures r[i].0 != r[j].0 {
        if i == 0 { assert r[j] == Put(t, k, v)[j - 1]; assert HasKey(Put(t, k, v), r[j].0); }
        else { assert r[i] == Put(t, k, v)[i - 1] && r[j] == Put(t, k, v)[j - 1]; }
      }
    }
  }

  /** Put adds no key but k. */
  lemma {:induction false} PutKeys(o: IntObject, k: string, v: int, k2: string)
    requires k2 != k && !HasKey(o, k2)
    ensures !HasKey(Put(o, k, v), k2)
    decreases |o|
  {
    if o != [] && o[0].0 != k {
      assert !HasKey(o[1..], k2) by {
        forall i | 0 <= i < |o[1..]| ensures o[1..][i].0 != k2 { assert o[1..][i] == o[i + 1]; }
      }
      PutKeys(o[1..], k, v, k2);
      var r := Put(o, k, v);
      assert r == [o[0]] + Put(o[1..], k, v);
      forall i | 0 <= i < |r| ensures r[i].0 != k2 {
        if i > 0 { assert r[i] == Put(o[1..], k, v)[i - 1]; }
      }
    } else if o != [] {
      var r := Put(o, k, v);
      assert r == [(k, v)] + o[1..];
      forall i | 0 <= i < |r| ensures r[i].0 != k2 {
        if i > 0 { assert r[i] == o[i]; }
      }
    }
  }

  /** After setStates both flags are present: the stored ones unchanged,
      missing ones as 0. */
  lemma SetStatesFlags(o: IntObject)
    requires DistinctKeys(o)
    ensures var r := FillDefaults(o, FillValues);
      DistinctKeys(r)
      && Get(r, "show_menu") == (if HasKey(o, "show_menu") then Get(o, "show_menu") else Some(0))
      && Get(r, "user_closed") == (if HasKey(o, "user_closed") then Get(o, "user_closed") else Some(0))
  {
    FillDefaultsMeaning(o, FillValues, "show_menu");
    FillDefaultsMeaning(o, FillValues, "user_closed");
  }

  /** getStates after setStates reads back the filled record. */
  lemma GetAfterSetStates(o: IntObject, name: string, jar: Jar)
    requires DistinctKeys(o)
    ensures var r := FillDefaults(o, FillValues);
      var jar' := jar[CookieName(name) := StatesCookie(r)];
      StatesReadable(jar', name) && GetStates(jar', name) == r
  {
    var r := FillDefaults(o, FillValues);
    FillDefaultsMeaning(o, FillValues, "");
    ParseStringifyIntObject(r);
    assert StringifyIntObject(r)[0] == '{';
  }
}
