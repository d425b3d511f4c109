/** The two JSON shapes the scripts keep in cookies: an array of strings (the
    accepted consent categories) and a flat object whose values are integers
    (the sub-navigation and advert state record). Stringify follows
    JSON.stringify; Parse follows JSON.parse on those shapes and rejects
    anything else. */
module Json {
  import opened Common
  import opened Decimal

  function HexDigitChar(d: nat): (c: char)
    requires d < 16
    ensures RadixDigit(c, 16) == Some(d)
  {
    if d < 10 then ('0' as int + d) as char else ('a' as int + d - 10) as char
  }

  /** How JSON.stringify writes one character inside a string literal. */
  function QuoteChar(c: char): (r: string)
    ensures |r| >= 1
  {
    if c == '"' then ['\\', '"']
    else if c == '\\' then ['\\', '\\']
    else if c == '\U{8}' then ['\\', 'b']
    else if c == '\t' then ['\\', 't']
    else if c == '\n' then ['\\', 'n']
    else if c == '\U{C}' then ['\\', 'f']
    else if c == '\r' then ['\\', 'r']
    else if c < ' ' then ['\\', 'u', '0', '0', HexDigitChar(c as int / 16), HexDigitChar(c as int % 16)]
    else [c]
  }

  function QuoteBody(s: string): string
    decreases |s|
  {
    if s == [] then [] else QuoteChar(s[0]) + QuoteBody(s[1..])
  }

  /** JSON.stringify on a string. */
  function Quote(s: string): string {
    ['"'] + QuoteBody(s) + ['"']
  }

  /** The character a one-letter escape stands for. */
  function SimpleEscape(c: char): Option<char> {
    if c == '"' then Some('"')
    else if c == '\\' then Some('\\')
    else if c == '/' then Some('/')
    else if c == 'b' then Some('\U{8}')
    else if c == 'f' then Some('\U{C}')
    else if c == 'n' then Some('\n')
    else if c == 'r' then Some('\r')
    else if c == 't' then Some('\t')
    else None
  }

  /** The code unit named by the four hexadecimal digits s[0..4]. */
  function Hex4(s: string): (r: Option<nat>)
    requires |s| >= 4
    ensures r.Some? ==> r.value < 0x1_0000
  {
    var d0, d1, d2, d3 := RadixDigit(s[0], 16), RadixDigit(s[1], 16), RadixDigit(s[2], 16), RadixDigit(s[3], 16);
    if d0.Some? && d1.Some? && d2.Some? && d3.Some?
    then Some(d0.value * 4096 + d1.value * 256 + d2.value * 16 + d3.value)
    else None
  }

  /** Reads the rest of a string literal after its opening quote; `acc` holds
      the characters read so far. Returns the string and the text after the
      closing quote. A \u escape naming a surrogate is not read. */
  function ParseStringBody(s: string, acc: string): (r: Option<(string, string)>)
    decreases |s|
    ensures r.Some? ==> |r.value.1| < |s|
  {
    if s == [] then None
    else if s[0] == '"' then Some((acc, s[1..]))
    else if s[0] == '\\' then
      if |s| < 2 then None
      else if SimpleEscape(s[1]).Some? then ParseStringBody(s[2..], acc + [SimpleEscape(s[1]).value])
      else if s[1] == 'u' && |s| >= 6 && Hex4(s[2..]).Some? then
        var code := Hex4(s[2..]).value;
        if 0xD800 <= code < 0xE000 then None
        else ParseStringBody(s[6..], acc + [code as char])
      else None
    else if s[0] < ' ' then None
    else ParseStringBody(s[1..], acc + [s[0]])
  }

  /** Reads a string literal from the front of s. */
  function ParseString(s: string): (r: Option<(string, string)>)
    ensures r.Some? ==> |r.value.1| < |s|
  {
    if s != [] && s[0] == '"' then ParseStringBody(s[1..], "") else None
  }

  lemma ParseQuoteChar(c: char, t: string, acc: string)
    ensures ParseStringBody(QuoteChar(c) + t, acc) == ParseStringBody(t, acc + [c])
  {
    var s := QuoteChar(c) + t;
    if c == '"' || c == '\\' || c == '\U{8}' || c == '\t' || c == '\n' || c == '\U{C}' || c == '\r' {
      assert s[2..] == t;
    } else if c < ' ' {
      var hi, lo := c as int / 16, c as int % 16;
      assert s[2..][..4] == ['0', '0', HexDigitChar(hi), HexDigitChar(lo)];
      assert Hex4(s[2..]) == Some(hi * 16 + lo);
      assert s[6..] == t;
    } else {
      assert s[1..] == t;
    }
  }

  lemma {:induction false} ParseQuoteBody(x: string, rest: string, acc: string)
    ensures ParseStringBody(QuoteBody(x) + ['"'] + rest, acc) == Some((acc + x, rest))
    decreases |x|
  {
    if x == [] {
      assert (QuoteBody(x) + ['"'] + rest)[1..] == rest;
      assert acc + x == acc;
    } else {
      assert QuoteBody(x) + ['"'] + rest == QuoteChar(x[0]) + (QuoteBody(x[1..]) + ['"'] + rest);
      ParseQuoteChar(x[0], QuoteBody(x[1..]) + ['"'] + rest, acc);
      ParseQuoteBody(x[1..], rest, acc + [x[0]]);
      assert acc + [x[0]] + x[1..] == acc + x;
    }
  }

  /** A stringified string reads back as itself, whatever follows it. */
  lemma ParseQuote(x: string, rest: string)
    ensures ParseString(Quote(x) + rest) == Some((x, rest))
  {
    assert (Quote(x) + rest)[1..] == QuoteBody(x) + ['"'] + rest;
    ParseQuoteBody(x, rest, "");
    assert "" + x == x;
  }

  predicate IsJsonSpace(c: char) { c == ' ' || c == '\t' || c == '\n' || c == '\r' }

  /** Skips JSON white space. */
  function SkipSpace(s: string): (r: string)
    ensures |r| <= |s|
    ensures r == [] || !IsJsonSpace(r[0])
  {
    if s != [] && IsJsonSpace(s[0]) then SkipSpace(s[1..]) else s
  }

  // ---- arrays of strings ----

  function JoinQuoted(xs: seq<string>): string
    decreases |xs|
  {
    if xs == [] then ""
    else if |xs| == 1 then Quote(xs[0])
    else Quote(xs[0]) + "," + JoinQuoted(xs[1..])
  }

  /** JSON.stringify on an array of strings. */
  function StringifyStrings(xs: seq<string>): string {
    "[" + JoinQuoted(xs) + "]"
  }

  /** Reads `string (, string)* ]` after the opening bracket. */
  function ParseElements(s: string, acc: seq<string>): (r: Option<(seq<string>, string)>)
    decreases |s|
  {
    match ParseString(s)
    case None => None
    case Some((x, rest)) =>
      var r1 := SkipSpace(rest);
      if r1 == [] then None
      else if r1[0] == ']' then Some((acc + [x], r1[1..]))
      else if r1[0] == ',' then ParseElements(SkipSpace(r1[1..]), acc + [x])
      else None
  }

  /** JSON.parse on a text that must hold an array of strings; anything else is None. */
  function ParseStrings(s: string): (r: Option<seq<string>>) {
    var t := SkipSpace(s);
    if t == [] || t[0] != '[' then None
    else
      var u := SkipSpace(t[1..]);
      if u != [] && u[0] == ']' then
        if SkipSpace(u[1..]) == [] then Some([]) else None
      else
        match ParseElements(u, [])
        case None => None
        case Some((xs, rest)) => if SkipSpace(rest) == [] then Some(xs) else None
  }

  lemma SkipSpaceNoop(s: string)
    requires s == [] || !IsJsonSpace(s[0])
    ensures SkipSpace(s) == s
  {
  }

  /** ParseElements on an element followed by the closing bracket. */
  lemma ParseElementsLast(s: string, x: string, tail: string, acc: seq<string>)
    requires s == Quote(x) + [']'] + tail
    ensures ParseElements(s, acc) == Some((acc + [x], tail))
  {
    var t := [']'] + tail;
    assert s == Quote(x) + t;
    ParseQuote(x, t);
    SkipSpaceNoop(t);
    assert t[1..] == tail;
  }

  /** ParseElements on an element followed by a comma and a further element. */
  lemma ParseElementsNext(s: string, x: string, tail: string, acc: seq<string>)
    requires s == Quote(x) + [','] + tail
    requires tail != [] && tail[0] == '"'
    ensures ParseElements(s, acc) == ParseElements(tail, acc + [x])
  {
    var t := [','] + tail;
    assert s == Quote(x) + t;
    ParseQuote(x, t);
    SkipSpaceNoop(t);
    assert t[1..] == tail;
    SkipSpaceNoop(tail);
  }

  /** A joined list of quoted strings starts with a quote. */
  lemma JoinQuotedStart(xs: seq<string>)
    requires xs != []
    ensures |JoinQuoted(xs)| > 0 && JoinQuoted(xs)[0] == '"'
  {
    var q := Quote(xs[0]);
    assert q[0] == '"';
  }

  /** acc + xs, with xs split into its head and the rest. */
  lemma AppendHead<T>(acc: seq<T>, xs: seq<T>)
    requires xs != []
    ensures acc + xs == acc + [xs[0]] + xs[1..]
    ensures |xs| == 1 ==> acc + xs == acc + [xs[0]]
  {
    assert xs == [xs[0]] + xs[1..];
  }

  lemma {:induction false} ParseJoinQuoted(xs: seq<string>, rest: string, acc: seq<string>)
    requires xs != []
    ensures ParseElements(JoinQuoted(xs) + "]" + rest, acc) == Some((acc + xs, rest))
    decreases |xs|
  {
    var x := xs[0];
    var s := JoinQuoted(xs) + "]" + rest;
    if |xs| == 1 {
      assert JoinQuoted(xs) == Quote(x);
      ParseElementsLast(s, x, rest, acc);
      AppendHead(acc, xs);
    } else {
      var tail := JoinQuoted(xs[1..]) + "]" + rest;
      assert JoinQuoted(xs) == Quote(x) + "," + JoinQuoted(xs[1..]);
      assert s == Quote(x) + [','] + tail;
      JoinQuotedStart(xs[1..]);
      assert tail[0] == '"';
      ParseElementsNext(s, x, tail, acc);
      ParseJoinQuoted(xs[1..], rest, acc + [x]);
      AppendHead(acc, xs);
    }
  }

  lemma AppendEmpty<T>(xs: seq<T>)
    ensures [] + xs == xs && xs + [] == xs
  {
  }

  /** ParseStrings on `[` followed by elements that ParseElements reads to the end. */
  lemma ParseStringsOfElements(s: string, xs: seq<string>)
    requires |s| > 1 && s[0] == '[' && s[1] == '"'
    requires ParseElements(s[1..], []) == Some((xs, ""))
    ensures ParseStrings(s) == Some(xs)
  {
    SkipSpaceNoop(s);
    SkipSpaceNoop(s[1..]);
  }

  /** The categories cookie round trip: JSON.parse(JSON.stringify(xs)) == xs. */
  lemma ParseStringifyStrings(xs: seq<string>)
    ensures ParseStrings(StringifyStrings(xs)) == Some(xs)
  {
    var s := StringifyStrings(xs);
    if xs == [] {
      assert s == "[]";
    } else {
      var b := JoinQuoted(xs);
      assert s[1..] == b + "]" + "";
      JoinQuotedStart(xs);
      assert s[1] == b[0];
      ParseJoinQuoted(xs, "", []);
      AppendEmpty(xs);
      ParseStringsOfElements(s, xs);
    }
  }

  // ---- flat objects with integer values ----

  /** A JavaScript object with integer-valued properties, in insertion order. */
  type IntObject = seq<(string, int)>

  predicate HasKey(o: IntObject, k: string) {
    exists i :: 0 <= i < |o| && o[i].0 == k
  }

  predicate DistinctKeys(o: IntObject) {
    forall i, j :: 0 <= i < j < |o| ==> o[i].0 != o[j].0
  }

  /** o[k] = v: a present key keeps its place and takes the new value; a new key goes last. */
  function Put(o: IntObject, k: string, v: int): (r: IntObject)
    decreases |o|
    ensures HasKey(o, k) ==> |r| == |o|
    ensures !HasKey(o, k) ==> r == o + [(k, v)]
  {
    if o == [] then [(k, v)]
    else if o[0].0 == k then [(k, v)] + o[1..]
    else
      assert HasKey(o, k) ==> HasKey(o[1..], k);
      assert !HasKey(o, k) ==> !HasKey(o[1..], k);
      [o[0]] + Put(o[1..], k, v)
  }

  /** The value of property k, if there is one. */
  function Get(o: IntObject, k: string): (r: Option<int>)
    decreases |o|
    ensures r.Some? <==> HasKey(o, k)
  {
    if o == [] then None
    else if o[0].0 == k then Some(o[0].1)
    else
      assert HasKey(o, k) <==> HasKey(o[1..], k) by {
        if HasKey(o, k) { var i :| 0 <= i < |o| && o[i].0 == k; assert o[1..][i - 1].0 == k; }
      }
      Get(o[1..], k)
  }

  function Member(k: string, v: int): string {
    Quote(k) + ":" + IntToString(v)
  }

  function JoinMembers(o: IntObject): string
    decreases |o|
  {
    if o == [] then ""
    else if |o| == 1 then Member(o[0].0, o[0].1)
    else Member(o[0].0, o[0].1) + "," + JoinMembers(o[1..])
  }

  /** JSON.stringify on such an object. */
  function StringifyIntObject(o: IntObject): string {
    "{" + JoinMembers(o) + "}"
  }

  /** Reads `"k" : int (, "k" : int)* }` after the opening brace. */
  function ParseMembers(s: string, acc: IntObject): (r: Option<(IntObject, string)>)
    decreases |s|
  {
    match ParseString(s)
    case None => None
    case Some((k, r0)) =>
      var r1 := SkipSpace(r0);
      if r1 == [] || r1[0] != ':' then None
      else
        match ParseJsonInt(SkipSpace(r1[1..]))
        case None => None
        case Some((v, r2)) =>
          var r3 := SkipSpace(r2);
          if r3 == [] then None
          else if r3[0] == '}' then Some((Put(acc, k, v), r3[1..]))
          else if r3[0] == ',' then ParseMembers(SkipSpace(r3[1..]), Put(acc, k, v))
          else None
  }

  /** JSON.parse on a text that must hold a flat object of integers. */
  function ParseIntObject(s: string): (r: Option<IntObject>) {
    var t := SkipSpace(s);
    if t == [] || t[0] != '{' then None
    else
      var u := SkipSpace(t[1..]);
      if u != [] && u[0] == '}' then
        if SkipSpace(u[1..]) == [] then Some([]) else None
      else
        match ParseMembers(u, [])
        case None => None
        case Some((o, rest)) => if SkipSpace(rest) == [] then Some(o) else None
  }

  /** String(i) starts with a minus sign or a digit. */
  lemma IntToStringStart(i: int)
    ensures IntToString(i)[0] == '-' || IsDigit(IntToString(i)[0])
  {
    if i >= 0 {
      assert RadixDigit(NatToString(i)[0], 10).Some?;
    }
  }

  /** The steps ParseMembers takes over `"k":v` when t follows the value. */
  lemma MemberPrefix(s: string, k: string, v: int, t: string)
    requires s == Quote(k) + ([':'] + (IntToString(v) + t))
    requires t != [] && !IsDigit(t[0]) && !IsJsonSpace(t[0])
    ensures ParseString(s) == Some((k, [':'] + (IntToString(v) + t)))
    ensures SkipSpace([':'] + (IntToString(v) + t)) == [':'] + (IntToString(v) + t)
    ensures SkipSpace(([':'] + (IntToString(v) + t))[1..]) == IntToString(v) + t
    ensures ParseJsonInt(IntToString(v) + t) == Some((v, t))
    ensures SkipSpace(t) == t
  {
    var t2 := IntToString(v) + t;
    var t1 := [':'] + t2;
    ParseQuote(k, t1);
    SkipSpaceNoop(t1);
    assert t1[1..] == t2;
    IntToStringStart(v);
    SkipSpaceNoop(t2);
    ParseJsonIntOfIntToString(v, t);
    SkipSpaceNoop(t);
  }

  /** ParseMembers on a member followed by the closing brace. */
  lemma ParseMembersLast(s: string, k: string, v: int, tail: string, acc: IntObject)
    requires s == Quote(k) + ([':'] + (IntToString(v) + (['}'] + tail)))
    ensures ParseMembers(s, acc) == Some((Put(acc, k, v), tail))
  {
    var t := ['}'] + tail;
    MemberPrefix(s, k, v, t);
    assert t[1..] == tail;
  }

  /** ParseMembers on a member followed by a comma and a further member. */
  lemma ParseMembersNext(s: string, k: string, v: int, tail: string, acc: IntObject)
    requires s == Quote(k) + ([':'] + (IntToString(v) + ([','] + tail)))
    requires tail != [] && tail[0] == '"'
    ensures ParseMembers(s, acc) == ParseMembers(tail, Put(acc, k, v))
  {
    var t := [','] + tail;
    MemberPrefix(s, k, v, t);
    assert t[1..] == tail;
    SkipSpaceNoop(tail);
  }

  lemma Regroup5<T>(q: seq<T>, c1: seq<T>, d: seq<T>, c2: seq<T>, r: seq<T>)
    ensures q + c1 + d + c2 + r == q + (c1 + (d + (c2 + r)))
  {
  }

  lemma Regroup7<T>(q: seq<T>, c1: seq<T>, d: seq<T>, c2: seq<T>, j: seq<T>, e: seq<T>, r: seq<T>)
    ensures q + c1 + d + c2 + j + e + r == q + (c1 + (d + (c2 + (j + e + r))))
  {
  }

  /** JoinMembers(o) + "}" + rest, regrouped as member, separator and remainder. */
  lemma JoinMembersShape(o: IntObject, rest: string)
    requires o != []
    ensures |JoinMembers(o)| > 0 && JoinMembers(o)[0] == '"'
    ensures |o| == 1 ==>
      JoinMembers(o) + "}" + rest == Quote(o[0].0) + ([':'] + (IntToString(o[0].1) + (['}'] + rest)))
    ensures |o| > 1 ==>
      JoinMembers(o) + "}" + rest
      == Quote(o[0].0) + ([':'] + (IntToString(o[0].1) + ([','] + (JoinMembers(o[1..]) + "}" + rest))))
  {
    var q, d := Quote(o[0].0), IntToString(o[0].1);
    assert q[0] == '"';
    if |o| == 1 {
      Regroup5(q, ":", d, "}", rest);
    } else {
      Regroup7(q, ":", d, ",", JoinMembers(o[1..]), "}", rest);
    }
  }

  /** A key that occurs later in a list with distinct keys is not among the earlier ones. */
  lemma DistinctHead(acc: IntObject, o: IntObject)
    requires o != [] && DistinctKeys(acc + o)
    ensures !HasKey(acc, o[0].0)
    ensures Put(acc, o[0].0, o[0].1) + o[1..] == acc + o
    ensures |o| == 1 ==> Put(acc, o[0].0, o[0].1) == acc + o
  {
    forall i | 0 <= i < |acc|
      ensures acc[i].0 != o[0].0
    {
      assert (acc + o)[i] == acc[i] && (acc + o)[|acc|] == o[0];
    }
    AppendHead(acc, o);
  }

  lemma {:induction false} ParseJoinMembers(o: IntObject, rest: string, acc: IntObject)
    requires o != [] && DistinctKeys(acc + o)
    ensures ParseMembers(JoinMembers(o) + "}" + rest, acc) == Some((acc + o, rest))
    decreases |o|
  {
    var s := JoinMembers(o) + "}" + rest;
    JoinMembersShape(o, rest);
    DistinctHead(acc, o);
    if |o| == 1 {
      ParseMembersLast(s, o[0].0, o[0].1, rest, acc);
    } else {
      var tail := JoinMembers(o[1..]) + "}" + rest;
      JoinMembersShape(o[1..], rest);
      ParseMembersNext(s, o[0].0, o[0].1, tail, acc);
      ParseJoinMembers(o[1..], rest, Put(acc, o[0].0, o[0].1));
    }
  }

  /** ParseIntObject on `{` followed by members that ParseMembers reads to the end. */
  lemma ParseIntObjectOfMembers(s: string, o: IntObject)
    requires |s| > 1 && s[0] == '{' && s[1] == '"'
    requires ParseMembers(s[1..], []) == Some((o, ""))
    ensures ParseIntObject(s) == Some(o)
  {
    SkipSpaceNoop(s);
    SkipSpaceNoop(s[1..]);
  }

  /** The state-record round trip: an object with distinct keys reads back as itself. */
  lemma ParseStringifyIntObject(o: IntObject)
    requires DistinctKeys(o)
    ensures ParseIntObject(StringifyIntObject(o)) == Some(o)
  {
    var s := StringifyIntObject(o);
    if o == [] {
      assert s == "{}";
    } else {
      var b := JoinMembers(o);
      assert s[1..] == b + "}" + "";
      JoinMembersShape(o, "");
      assert s[1] == b[0];
      AppendEmpty(o);
      ParseJoinMembers(o, "", []);
      ParseIntObjectOfMembers(s, o);
    }
  }
}
