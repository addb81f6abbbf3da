/** Values and string operations shared by every part of the whitelist
    system: the JavaScript value model used for request bodies, parsed JSON
    and query parameters, and the few string methods the code calls
    (`trim`, `includes`, `startsWith`, `toLowerCase`, `split`, `join`,
    `String(n)`). */
module Common {

  datatype Option<T> = None | Some(value: T)

  /** A JavaScript value as it arrives from a JSON body, a parsed JSON text or
      a query string. Numbers are integers; `undefined` is the absence of a
      value and is written `None` where a property may be missing. */
  datatype Json =
    | JNull
    | JBool(b: bool)
    | JNum(n: int)
    | JStr(s: string)
    | JArr(items: seq<Json>)
    | JObj(members: seq<(string, Json)>)

  /** JavaScript truthiness: `null`, `false`, `0` and `""` are falsy. */
  predicate Truthy(v: Json) {
    match v
    case JNull => false
    case JBool(b) => b
    case JNum(n) => n != 0
    case JStr(s) => s != ""
    case JArr(_) => true
    case JObj(_) => true
  }

  /** Member lookup in a list of object members: the last member with the
      key wins, as in `JSON.parse` (`LookupFindsLast`). */
  function LookupMember(members: seq<(string, Json)>, key: string): (r: Option<Json>)
    ensures r.Some? <==> exists i :: 0 <= i < |members| && members[i].0 == key
    ensures r.Some? ==> exists i :: 0 <= i < |members| && members[i] == (key, r.value)
    decreases |members|
  {
    if members == [] then None
    else if members[|members| - 1].0 == key then
      Some(members[|members| - 1].1)
    else
      var r := LookupMember(members[..|members| - 1], key);
      assert forall i :: 0 <= i < |members| - 1 ==> members[..|members| - 1][i] == members[i];
      r
  }

  /** Member `i` is the last one with the key. */
  predicate LastWithKey(members: seq<(string, Json)>, key: string, i: int) {
    0 <= i < |members| && members[i].0 == key
    && forall j :: i < j < |members| ==> members[j].0 != key
  }

  /** Lookup returns the value of the last member with the key. */
  lemma {:induction false} LookupFindsLast(members: seq<(string, Json)>, key: string, i: int)
    requires LastWithKey(members, key, i)
    ensures LookupMember(members, key) == Some(members[i].1)
    decreases |members|
  {
    var n := |members| - 1;
    if i < n {
      var init := members[..n];
      assert init[i] == members[i];
      assert LastWithKey(init, key, i);
      LookupFindsLast(init, key, i);
    }
  }

  /** `v.key` for a value that is not `null`: only objects have members;
      on any other value the property is `undefined`. */
  function Prop(v: Json, key: string): Option<Json> {
    match v
    case JObj(ms) => LookupMember(ms, key)
    case _ => None
  }

  /** `v?.key`: `undefined` when `v` is `undefined` or `null`. */
  function OptProp(v: Option<Json>, key: string): Option<Json> {
    match v
    case None => None
    case Some(JNull) => None
    case Some(x) => Prop(x, key)
  }

  /** A possibly missing value that is present and truthy. */
  predicate OptTruthy(v: Option<Json>) {
    v.Some? && Truthy(v.value)
  }

  /** `a ?? b`: `a` unless it is missing or null. */
  function Nullish(a: Option<Json>, b: Option<Json>): (r: Option<Json>)
    ensures a.Some? && a.value != JNull ==> r == a
    ensures a.None? || a.value == JNull ==> r == b
  {
    if a.Some? && a.value != JNull then a else b
  }

  // ---------------------------------------------------------------------
  // Whitespace and trimming

  /** The characters `String.prototype.trim` removes: WhiteSpace and
      LineTerminator of the ECMAScript grammar. */
  predicate IsJsSpace(c: char) {
    c == '\t' || c == '\n' || c == '\U{B}' || c == '\U{C}' || c == '\r' || c == ' '
    || c == '\U{A0}' || c == '\U{1680}' || ('\U{2000}' <= c <= '\U{200A}')
    || c == '\U{2028}' || c == '\U{2029}' || c == '\U{202F}' || c == '\U{205F}'
    || c == '\U{3000}' || c == '\U{FEFF}'
  }

  predicate AllSpace(s: string) {
    forall k :: 0 <= k < |s| ==> IsJsSpace(s[k])
  }

  function TrimStart(s: string): (r: string)
    ensures |r| <= |s| && r == s[|s| - |r|..]
    ensures r != [] ==> !IsJsSpace(r[0])
    decreases |s|
  {
    if s != [] && IsJsSpace(s[0]) then
      var r := TrimStart(s[1..]);
      assert s[1..][..|s| - 1 - |r|] == s[1..|s| - |r|];
      r
    else s
  }

  function TrimEnd(s: string): (r: string)
    ensures |r| <= |s| && r == s[..|r|]
    ensures r != [] ==> !IsJsSpace(r[|r| - 1])
    decreases |s|
  {
    if s != [] && IsJsSpace(s[|s| - 1]) then
      var r := TrimEnd(s[..|s| - 1]);
      assert s[..|s| - 1][|r|..] == s[|r|..|s| - 1];
      r
    else s
  }

  /** `String.prototype.trim`. */
  function Trim(s: string): (r: string)
    ensures |r| <= |s|
    ensures r != [] ==> !IsJsSpace(r[0]) && !IsJsSpace(r[|r| - 1])
  {
    TrimEnd(TrimStart(s))
  }

  /** A string is blank when nothing is left after trimming. */
  predicate IsBlank(s: string) {
    Trim(s) == ""
  }

  /** `TrimStart` removes only white space. */
  lemma {:induction false} TrimStartSpaces(s: string)
    ensures AllSpace(s[..|s| - |TrimStart(s)|])
    decreases |s|
  {
    if s != [] && IsJsSpace(s[0]) {
      TrimStartSpaces(s[1..]);
      var r := TrimStart(s);
      assert s[1..][..|s| - 1 - |r|] == s[1..|s| - |r|];
    }
  }

  /** `TrimEnd` removes only white space. */
  lemma {:induction false} TrimEndSpaces(s: string)
    ensures AllSpace(s[|TrimEnd(s)|..])
    decreases |s|
  {
    if s != [] && IsJsSpace(s[|s| - 1]) {
      TrimEndSpaces(s[..|s| - 1]);
      var r := TrimEnd(s);
      assert s[..|s| - 1][|r|..] == s[|r|..|s| - 1];
    }
  }

  lemma {:induction false} BlankIffAllSpace(s: string)
    ensures IsBlank(s) <==> AllSpace(s)
  {
    TrimStartSpaces(s);
    var a := TrimStart(s);
    TrimEndSpaces(a);
    if a == [] {
      assert s[..|s| - |a|] == s;
    } else {
      assert !IsJsSpace(s[|s| - |a|]);
      assert TrimEnd(a) != [];
    }
  }

  lemma {:induction false} TrimIdempotent(s: string)
    ensures Trim(Trim(s)) == Trim(s)
  {
    var r := Trim(s);
    if r != [] {
      assert TrimStart(r) == r;
      assert TrimEnd(r) == r;
    }
  }

  // ---------------------------------------------------------------------
  // Prefixes, substrings, case

  predicate StartsWith(s: string, p: string) {
    |p| <= |s| && s[..|p|] == p
  }

  predicate EndsWith(s: string, p: string) {
    |p| <= |s| && s[|s| - |p|..] == p
  }

  predicate OccursAt(s: string, sub: string, i: int) {
    0 <= i && i + |sub| <= |s| && s[i..i + |sub|] == sub
  }

  /** `String.prototype.includes`. */
  function Contains(s: string, sub: string): (r: bool)
    ensures r <==> exists i :: OccursAt(s, sub, i)
    decreases |s|
  {
    if StartsWith(s, sub) then
      assert OccursAt(s, sub, 0);
      true
    else if s == [] then
      assert forall i :: OccursAt(s, sub, i) ==> i == 0;
      false
    else
      var r := Contains(s[1..], sub);
      ShiftOccurs(s, sub);
      r
  }

  /** Occurrences in `s[1..]` are the occurrences in `s` after its first
      position, shifted by one. */
  lemma ShiftOccurs(s: string, sub: string)
    requires s != []
    ensures forall i :: OccursAt(s[1..], sub, i) ==> OccursAt(s, sub, i + 1)
    ensures forall i :: OccursAt(s, sub, i) ==> i == 0 || OccursAt(s[1..], sub, i - 1)
  {
    forall i | OccursAt(s[1..], sub, i)
      ensures OccursAt(s, sub, i + 1)
    {
      assert s[1..][i..i + |sub|] == s[i + 1..i + 1 + |sub|];
    }
    forall i | OccursAt(s, sub, i) && i != 0
      ensures OccursAt(s[1..], sub, i - 1)
    {
      assert s[1..][i - 1..i - 1 + |sub|] == s[i..i + |sub|];
    }
  }

  /** A substring of `s` is a substring of anything `s` is embedded in. */
  lemma ContainsWithin(pre: string, s: string, post: string, sub: string)
    requires Contains(s, sub)
    ensures Contains(pre + s + post, sub)
  {
    var i :| OccursAt(s, sub, i);
    assert (pre + s + post)[|pre| + i..|pre| + i + |sub|] == s[i..i + |sub|];
    assert OccursAt(pre + s + post, sub, |pre| + i);
  }

  lemma ContainsSelf(s: string)
    ensures Contains(s, s)
  {
    assert OccursAt(s, s, 0);
  }

  function LowerChar(c: char): (d: char)
    ensures 'A' <= c <= 'Z' ==> d as int == c as int + 32
    ensures !('A' <= c <= 'Z') ==> d == c
  {
    if 'A' <= c <= 'Z' then (c as int + 32) as char else c
  }

  /** `String.prototype.toLowerCase`, on the ASCII letters. */
  function ToLower(s: string): (r: string)
    ensures |r| == |s|
    ensures forall k :: 0 <= k < |s| ==> r[k] == LowerChar(s[k])
  {
    seq(|s|, k requires 0 <= k < |s| => LowerChar(s[k]))
  }

  // ---------------------------------------------------------------------
  // Decimal numbers

  predicate IsDigit(c: char) {
    '0' <= c <= '9'
  }

  predicate AllDigits(s: string) {
    forall k :: 0 <= k < |s| ==> IsDigit(s[k])
  }

  function DigitChar(d: nat): (c: char)
    requires d < 10
    ensures IsDigit(c) && c as int - '0' as int == d
  {
    ('0' as int + d) as char
  }

  /** The value of a string of decimal digits. */
  function DigitsValue(s: string): (n: nat)
    requires AllDigits(s)
    decreases |s|
  {
    if s == [] then 0
    else DigitsValue(s[..|s| - 1]) * 10 + (s[|s| - 1] as int - '0' as int)
  }

  /** `String(n)` for a natural number. */
  function NatToString(n: nat): (s: string)
    ensures s != [] && AllDigits(s)
    ensures |s| == 1 || s[0] != '0'
    decreases n
  {
    if n < 10 then [DigitChar(n)] else NatToString(n / 10) + [DigitChar(n % 10)]
  }

  lemma {:induction false} NatToStringValue(n: nat)
    ensures DigitsValue(NatToString(n)) == n
    decreases n
  {
    if n >= 10 {
      var s := NatToString(n);
      NatToStringValue(n / 10);
      assert s[..|s| - 1] == NatToString(n / 10);
    }
  }

  lemma {:induction false} NatToStringInjective(m: nat, n: nat)
    requires NatToString(m) == NatToString(n)
    ensures m == n
  {
    NatToStringValue(m);
    NatToStringValue(n);
  }

  lemma {:induction false} NatToStringShort(n: nat)
    requires n < 100
    ensures 1 <= |NatToString(n)| <= 2
  {
  }

  /** `Math.round(part / whole * 100)` for `whole > 0`, and 0 for an empty
      whole: the integer nearest to the percentage, halves rounded up. */
  function RoundPercent(part: int, whole: int): (p: int)
    ensures whole <= 0 ==> p == 0
    ensures whole > 0 ==> 2 * whole * p - whole <= 200 * part < 2 * whole * p + whole
    ensures 0 <= part <= whole ==> 0 <= p <= 100
  {
    if whole <= 0 then 0
    else
      var p := (200 * part + whole) / (2 * whole);
      RoundBounds(part, whole, p);
      p
  }

  lemma RoundBounds(part: int, whole: int, p: int)
    requires whole > 0 && p == (200 * part + whole) / (2 * whole)
    ensures 2 * whole * p - whole <= 200 * part < 2 * whole * p + whole
    ensures 0 <= part <= whole ==> 0 <= p <= 100
  {
    var d := 2 * whole;
    var n := 200 * part + whole;
    var m := n % d;
    assert n == d * p + m && 0 <= m < d;
    assert 2 * whole * p == d * p;
    if 0 <= part <= whole {
      assert d * (101 - p) == d * 101 - d * p;
      assert d * 101 - d * p > 0;
      PositiveFactor(d, 101 - p);
      assert 0 <= n;
      PositiveFactor2(d, p, m, n);
    }
  }

  /** A product with a positive left factor is positive only if the right
      factor is. */
  lemma PositiveFactor(a: int, b: int)
    requires a > 0 && a * b > 0
    ensures b > 0
  {
  }

  lemma PositiveFactor2(d: int, p: int, m: int, n: int)
    requires d > 0 && 0 <= m < d && n == d * p + m && n >= 0
    ensures p >= 0
  {
  }

  /** Nothing out of anything rounds to 0. */
  lemma RoundZero(w: int)
    ensures RoundPercent(0, w) == 0
  {
    if w > 0 {
      var p := RoundPercent(0, w);
      assert 2 * w * p - w <= 0 < 2 * w * p + w;
      if p >= 1 {
        PositiveProduct(w, 2 * p - 1);
      }
      if p <= -1 {
        PositiveProduct(w, -2 * p - 1);
      }
    }
  }

  /** The rounded percentage of `n` out of `w < 200` is 100 exactly when
      `n == w`. */
  lemma FullIffAll(n: int, w: int)
    requires 0 < w < 200 && 0 <= n <= w
    ensures RoundPercent(n, w) == 100 <==> n == w
  {
    var p := RoundPercent(n, w);
    assert 2 * w * p - w <= 200 * n < 2 * w * p + w;
    if n == w {
      FullRound(w, p);
    }
    if p == 100 {
      assert 199 * w <= 200 * n;
    }
  }

  lemma FullRound(w: int, p: int)
    requires w > 0 && 2 * w * p - w <= 200 * w < 2 * w * p + w
    ensures p == 100
  {
    assert w * (2 * p - 201) <= 0;
    assert w * (199 - 2 * p) < 0;
    if p > 100 {
      assert 2 * p - 201 > 0;
      PositiveProduct(w, 2 * p - 201);
    }
    if p < 100 {
      assert 199 - 2 * p > 0;
      PositiveProduct(w, 199 - 2 * p);
    }
  }

  lemma PositiveProduct(a: int, b: int)
    requires a > 0 && b > 0
    ensures a * b > 0
  {
  }

  /** `String(n)` for an integer. */
  function IntToString(i: int): (s: string)
    ensures s != []
  {
    if i < 0 then "-" + NatToString(-i) else NatToString(i)
  }

  /** `String(v)` for any value. */
  function ToStr(v: Json): string
    decreases v
  {
    match v
    case JNull => "null"
    case JBool(b) => if b then "true" else "false"
    case JNum(n) => IntToString(n)
    case JStr(s) => s
    case JArr(items) => ItemsText(items)
    case JObj(_) => "[object Object]"
  }

  /** `items.join(",")`, where `null` items read as empty. */
  function ItemsText(items: seq<Json>): string
    decreases items
  {
    if items == [] then ""
    else
      var first := if items[0] == JNull then "" else ToStr(items[0]);
      if |items| == 1 then first else first + "," + ItemsText(items[1..])
  }

  /** `String(v)` or a template-literal interpolation `${v}` of a
      possibly missing value; a missing one reads "undefined". */
  function Interp(v: Option<Json>): string {
    match v
    case None => "undefined"
    case Some(x) => ToStr(x)
  }

  /** `String(v).trim() === ""`, decided by the kind of value: a string is
      blank when its text is, an array when the join of its items is, and
      null, booleans, numbers and objects never print blank. */
  predicate BlankText(v: Json) {
    match v
    case JStr(s) => IsBlank(s)
    case JArr(items) => IsBlank(ItemsText(items))
    case _ => false
  }

  lemma BlankTextIsBlank(v: Json)
    ensures BlankText(v) <==> IsBlank(ToStr(v))
  {
    if !v.JStr? && !v.JArr? {
      var s := ToStr(v);
      assert s != [] && !IsJsSpace(s[0]) by {
        if v.JNum? && v.n >= 0 {
          assert IsDigit(s[0]);
        }
      }
      BlankIffAllSpace(s);
    }
  }

  // ---------------------------------------------------------------------
  // split and join

  function Join(parts: seq<string>, sep: char): string
    decreases |parts|
  {
    if parts == [] then ""
    else if |parts| == 1 then parts[0]
    else parts[0] + [sep] + Join(parts[1..], sep)
  }

  /** Every part of a joined list occurs in the joined text. */
  lemma {:induction false} PartInJoin(parts: seq<string>, sep: char, i: nat)
    requires i < |parts|
    ensures Contains(Join(parts, sep), parts[i])
    decreases |parts|
  {
    if |parts| == 1 {
      ContainsSelf(parts[0]);
    } else if i == 0 {
      ContainsSelf(parts[0]);
      ContainsWithin("", parts[0], [sep] + Join(parts[1..], sep), parts[0]);
      assert "" + parts[0] + ([sep] + Join(parts[1..], sep)) == Join(parts, sep);
    } else {
      PartInJoin(parts[1..], sep, i - 1);
      ContainsWithin(parts[0] + [sep], Join(parts[1..], sep), "", parts[i]);
      assert parts[0] + [sep] + Join(parts[1..], sep) + "" == Join(parts, sep);
    }
  }

  function IndexOf(s: string, c: char): (i: nat)
    requires c in s
    ensures i < |s| && s[i] == c && c !in s[..i]
  {
    if s[0] == c then 0 else 1 + IndexOf(s[1..], c)
  }

  /** `String.prototype.split` with a one-character separator. */
  function Split(s: string, sep: char): (r: seq<string>)
    ensures |r| >= 1
    ensures forall i :: 0 <= i < |r| ==> sep !in r[i]
    ensures Join(r, sep) == s
    decreases |s|
  {
    if sep !in s then [s]
    else
      var i := IndexOf(s, sep);
      var rest := Split(s[i + 1..], sep);
      assert s == s[..i] + [sep] + s[i + 1..];
      [s[..i]] + rest
  }

  lemma {:induction false} SplitJoin(parts: seq<string>, sep: char)
    requires |parts| >= 1
    requires forall i :: 0 <= i < |parts| ==> sep !in parts[i]
    ensures Split(Join(parts, sep), sep) == parts
    decreases |parts|
  {
    if |parts| > 1 {
      var s := Join(parts, sep);
      var p := parts[0];
      assert s == p + [sep] + Join(parts[1..], sep);
      assert sep in s by { assert s[|p|] == sep; }
      var i := IndexOf(s, sep);
      assert s[..|p|] == p;
      assert i == |p|;
      assert s[i + 1..] == Join(parts[1..], sep);
      SplitJoin(parts[1..], sep);
    }
  }
}
