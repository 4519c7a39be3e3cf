// The loosely-structured post record as a JSON value, with the JavaScript
// operations the classifier applies to it: truthiness, optional chaining,
// `includes` on an arbitrary value, the template-literal string conversion
// and JSON.stringify.

module Json {
  import opened Options
  import opened JsStrings
  import opened Subsequences

  datatype Member = Member(key: JsString, value: JValue)

  /** A value produced by JSON.parse. Numbers are integers here. */
  datatype JValue =
    | JNull
    | JBool(b: bool)
    | JNum(n: int)
    | JStr(s: JsString)
    | JArr(items: seq<JValue>)
    | JObj(members: seq<Member>)

  /** ToBoolean: `null`, `false`, `0` and the empty string are falsy. */
  predicate Truthy(v: JValue)
  {
    match v
    case JNull => false
    case JBool(b) => b
    case JNum(n) => n != 0
    case JStr(s) => s != []
    case _ => true
  }

  /** Truthiness of a lookup result; `undefined` (None) is falsy. */
  predicate TruthyOpt(o: Option<JValue>)
  {
    o.Some? && Truthy(o.value)
  }

  /** The value of the first member named `key`. */
  function Lookup(members: seq<Member>, key: JsString): (r: Option<JValue>)
    ensures r.Some? <==> exists i :: 0 <= i < |members| && members[i].key == key
    ensures r.Some? ==> exists i :: 0 <= i < |members| && members[i] == Member(key, r.value)
  {
    if members == [] then None
    else if members[0].key == key then Some(members[0].value)
    else
      var r := Lookup(members[1..], key);
      assert forall i :: 1 <= i < |members| ==> members[i] == members[1..][i - 1];
      r
  }

  /** One step of an optional chain: `?.name` (a name that is not an array index) or `?.[0]`. */
  datatype Step = Key(name: JsString) | First

  /** `o?.name` or `o?.[0]`: undefined on `undefined` and `null`; primitives have none of the names used. */
  function Get(o: Option<JValue>, step: Step): Option<JValue>
  {
    match o
    case None => None
    case Some(v) =>
      match step
      case Key(name) => (if v.JObj? then Lookup(v.members, name) else None)
      case First =>
        match v
        case JArr(items) => (if items == [] then None else Some(items[0]))
        case JStr(s) => (if s == [] then None else Some(JStr([s[0]])))
        case JObj(members) => Lookup(members, Bmp("0"))
        case _ => None
  }

  /** An optional chain `o?.a?.b...` */
  function Path(o: Option<JValue>, steps: seq<Step>): Option<JValue>
    decreases |steps|
  {
    if steps == [] then o else Path(Get(o, steps[0]), steps[1..])
  }

  lemma {:induction false} PathOfUndefined(steps: seq<Step>)
    ensures Path(None, steps) == None
    decreases |steps|
  {
    if steps != [] {
      PathOfUndefined(steps[1..]);
    }
  }

  /** `[...].filter(Boolean)` over a list of lookups. */
  function TruthyValues(os: seq<Option<JValue>>): (r: seq<JValue>)
    ensures forall v :: v in r <==> Some(v) in os && Truthy(v)
  {
    if os == [] then []
    else (if TruthyOpt(os[0]) then [os[0].value] else []) + TruthyValues(os[1..])
  }

  /**
   * The values kept are, in order and with repetitions, those of the
   * lookups `filter(Boolean)` keeps.
   */
  lemma {:induction false} TruthyValuesAreFiltered(os: seq<Option<JValue>>)
    ensures |TruthyValues(os)| == |Filter(os, TruthyOpt)|
    ensures forall k :: 0 <= k < |TruthyValues(os)| ==> Filter(os, TruthyOpt)[k] == Some(TruthyValues(os)[k])
    decreases |os|
  {
    if os != [] {
      TruthyValuesAreFiltered(os[1..]);
      var r, f := TruthyValues(os), Filter(os, TruthyOpt);
      var r', f' := TruthyValues(os[1..]), Filter(os[1..], TruthyOpt);
      if TruthyOpt(os[0]) {
        assert r == [os[0].value] + r' && f == [os[0]] + f';
        forall k | 0 < k < |r| ensures f[k] == Some(r[k]) {
          assert f[k] == f'[k - 1] && r[k] == r'[k - 1];
        }
      } else {
        assert r == r' && f == f';
      }
    }
  }

  /** Filtering a list of falsy lookups leaves nothing. */
  lemma {:induction false} TruthyValuesOfFalsy(os: seq<Option<JValue>>)
    requires forall i :: 0 <= i < |os| ==> !TruthyOpt(os[i])
    ensures TruthyValues(os) == []
    decreases |os|
  {
    if os != [] {
      assert forall i :: 0 <= i < |os[1..]| ==> os[1..][i] == os[i + 1];
      TruthyValuesOfFalsy(os[1..]);
    }
  }

  /**
   * `v.includes(n1) || v.includes(n2) || ...`: substring search on a string,
   * element search on an array, and None where JavaScript throws a TypeError
   * because the value has no `includes` method.
   */
  function IncludesAny(o: Option<JValue>, needles: seq<JsString>): (r: Option<bool>)
    ensures r.Some? <==> o.Some? && (o.value.JStr? || o.value.JArr?)
  {
    match o
    case Some(JStr(s)) => Some(exists i :: 0 <= i < |needles| && Contains(s, needles[i]))
    case Some(JArr(items)) => Some(exists i :: 0 <= i < |needles| && JStr(needles[i]) in items)
    case _ => None
  }

  /**
   * `vs.some(v => v && (v.includes(n1) || ...))`, which is also what a
   * `for ... of` loop that breaks at the first match computes: falsy entries
   * are skipped, the first match stops the scan, and a truthy entry without
   * `includes` met before any match makes the scan throw.
   */
  function SomeIncludes(vs: seq<Option<JValue>>, needles: seq<JsString>): Result<bool>
  {
    if vs == [] then Ok(false)
    else if !TruthyOpt(vs[0]) then SomeIncludes(vs[1..], needles)
    else
      match IncludesAny(vs[0], needles)
      case None => Thrown
      case Some(true) => Ok(true)
      case Some(false) => SomeIncludes(vs[1..], needles)
  }

  /** An entry of `vs` that matches one of the needles. */
  predicate Matches(vs: seq<Option<JValue>>, needles: seq<JsString>, i: int)
  {
    0 <= i < |vs| && TruthyOpt(vs[i]) && IncludesAny(vs[i], needles) == Some(true)
  }

  /** An entry of `vs` on which `includes` throws. */
  predicate Breaks(vs: seq<Option<JValue>>, needles: seq<JsString>, i: int)
  {
    0 <= i < |vs| && TruthyOpt(vs[i]) && IncludesAny(vs[i], needles).None?
  }

  /** The scan's verdict is fixed by the first entry that matches or throws. */
  lemma {:induction false} SomeIncludesDecidedAt(vs: seq<Option<JValue>>, needles: seq<JsString>, i: int)
    requires Matches(vs, needles, i) || Breaks(vs, needles, i)
    requires forall j :: 0 <= j < i ==> !Matches(vs, needles, j) && !Breaks(vs, needles, j)
    ensures SomeIncludes(vs, needles) == if Matches(vs, needles, i) then Ok(true) else Thrown
    decreases |vs|
  {
    if i > 0 {
      assert !Matches(vs, needles, 0) && !Breaks(vs, needles, 0);
      var rest := vs[1..];
      assert rest[i - 1] == vs[i];
      forall j | 0 <= j < i - 1 ensures !Matches(rest, needles, j) && !Breaks(rest, needles, j) {
        assert rest[j] == vs[j + 1];
        assert !Matches(vs, needles, j + 1) && !Breaks(vs, needles, j + 1);
      }
      SomeIncludesDecidedAt(rest, needles, i - 1);
    }
  }

  /** With no entry that matches or throws, the scan answers false. */
  lemma {:induction false} SomeIncludesUndecided(vs: seq<Option<JValue>>, needles: seq<JsString>)
    requires forall j :: 0 <= j < |vs| ==> !Matches(vs, needles, j) && !Breaks(vs, needles, j)
    ensures SomeIncludes(vs, needles) == Ok(false)
    decreases |vs|
  {
    if vs != [] {
      assert !Matches(vs, needles, 0) && !Breaks(vs, needles, 0);
      var rest := vs[1..];
      forall j | 0 <= j < |rest| ensures !Matches(rest, needles, j) && !Breaks(rest, needles, j) {
        assert rest[j] == vs[j + 1];
        assert !Matches(vs, needles, j + 1) && !Breaks(vs, needles, j + 1);
      }
      SomeIncludesUndecided(rest, needles);
    }
  }

  /** Every truthy entry is a string: the scan cannot throw, and it answers whether some entry matches. */
  predicate TruthyAreStrings(vs: seq<Option<JValue>>)
  {
    forall i :: 0 <= i < |vs| && TruthyOpt(vs[i]) ==> vs[i].value.JStr?
  }

  lemma {:induction false} SomeIncludesOfStrings(vs: seq<Option<JValue>>, needles: seq<JsString>)
    requires TruthyAreStrings(vs)
    ensures SomeIncludes(vs, needles) == Ok(exists i :: Matches(vs, needles, i))
    decreases |vs|
  {
    if vs != [] {
      var rest := vs[1..];
      assert TruthyAreStrings(rest) by {
        forall i | 0 <= i < |rest| && TruthyOpt(rest[i]) ensures rest[i].value.JStr? {
          assert rest[i] == vs[i + 1];
        }
      }
      SomeIncludesOfStrings(rest, needles);
      assert (exists i :: Matches(vs, needles, i)) <==> Matches(vs, needles, 0) || exists i :: Matches(rest, needles, i) by {
        if exists i :: Matches(vs, needles, i) {
          var i :| Matches(vs, needles, i);
          if i > 0 {
            assert rest[i - 1] == vs[i];
            assert Matches(rest, needles, i - 1);
          }
        }
        if exists i :: Matches(rest, needles, i) {
          var i :| Matches(rest, needles, i);
          assert rest[i] == vs[i + 1];
          assert Matches(vs, needles, i + 1);
        }
      }
    }
  }

  // ---------------------------------------------------------------------
  // ToString, as a template literal `${v}` applies it

  const NULL_TEXT: JsString := Bmp("null")
  const TRUE_TEXT: JsString := Bmp("true")
  const FALSE_TEXT: JsString := Bmp("false")
  const UNDEFINED_TEXT: JsString := Bmp("undefined")
  const OBJECT_TEXT: JsString := Bmp("[object Object]")
  const COMMA: JsString := Bmp(",")

  /** `${v}`: arrays are joined with commas (null elements give nothing), plain objects print as [object Object]. */
  function ToText(v: JValue): JsString
  {
    match v
    case JNull => NULL_TEXT
    case JBool(b) => if b then TRUE_TEXT else FALSE_TEXT
    case JNum(n) => IntText(n)
    case JStr(s) => s
    case JArr(items) => JoinText(items)
    case JObj(_) => OBJECT_TEXT
  }

  function JoinText(items: seq<JValue>): JsString
  {
    if items == [] then []
    else
      var head := if items[0].JNull? then [] else ToText(items[0]);
      if |items| == 1 then head else head + COMMA + JoinText(items[1..])
  }

  function ToTextOpt(o: Option<JValue>): JsString
  {
    if o.None? then UNDEFINED_TEXT else ToText(o.value)
  }

  // ---------------------------------------------------------------------
  // ToNumber and `length`

  /**
   * A string read as a number: blank is 0, an optionally signed run of
   * decimal digits is its value, anything else is NaN (`None`).
   */
  function StringToNumber(s: JsString): Option<int>
  {
    var t := Trim(s);
    if t == [] then Some(0)
    else
      var neg := t[0] == 0x2D;
      var digits := if t[0] == 0x2D || t[0] == 0x2B then t[1..] else t;
      if digits != [] && forall i :: 0 <= i < |digits| ==> IsDecimalDigit(digits[i]) then
        var v: int := DigitsValue(digits, 10);
        Some(if neg then -v else v)
      else None
  }

  /** ToNumber of a JSON value (section 7.1.4 of ECMA-262); `None` is NaN. */
  function ToNumber(v: JValue): Option<int>
  {
    match v
    case JNull => Some(0)
    case JBool(b) => Some(if b then 1 else 0)
    case JNum(n) => Some(n)
    case JStr(s) => StringToNumber(s)
    case JArr(_) => StringToNumber(ToText(v))
    case JObj(_) => None
  }

  const LENGTH: JsString := Bmp("length")

  /**
   * `v.length` as a relational operator sees it: the code-unit count of a
   * string, the item count of an array, an object's own `length` member
   * converted to a number, and NaN (`None`) for anything else.
   */
  function LengthNumber(v: JValue): (n: Option<int>)
    ensures v.JStr? ==> n == Some(|v.s|)
    ensures v.JArr? ==> n == Some(|v.items|)
    ensures v.JObj? && Lookup(v.members, LENGTH).None? ==> n == None
  {
    match v
    case JStr(s) => Some(|s|)
    case JArr(items) => Some(|items|)
    case JObj(members) =>
      (match Lookup(members, LENGTH)
       case Some(len) => ToNumber(len)
       case None => None)
    case _ => None
  }

  // ---------------------------------------------------------------------
  // JSON.stringify (section 25.5.2 of ECMA-262); numbers are integers here

  const QUOTE: CodeUnit := 0x22
  const BACKSLASH: CodeUnit := 0x5C

  predicate IsLeading(c: CodeUnit) { 0xD800 <= c <= 0xDBFF }
  predicate IsTrailing(c: CodeUnit) { 0xDC00 <= c <= 0xDFFF }

  function HexDigit(d: int): CodeUnit
    requires 0 <= d < 16
  {
    if d < 10 then (0x30 + d) as CodeUnit else (0x61 + d - 10) as CodeUnit
  }

  /** `\uXXXX` with lower-case hexadecimal digits. */
  function UnicodeEscape(c: CodeUnit): JsString
  {
    var n := c as int;
    [BACKSLASH, 0x75, HexDigit(n / 4096), HexDigit(n / 256 % 16), HexDigit(n / 16 % 16), HexDigit(n % 16)]
  }

  /** What QuoteJSONString writes for the code unit at position `i` of `s`. */
  function EscapeAt(s: JsString, i: nat): JsString
    requires i < |s|
  {
    var c := s[i];
    if c == QUOTE then [BACKSLASH, QUOTE]
    else if c == BACKSLASH then [BACKSLASH, BACKSLASH]
    else if c == 0x08 then [BACKSLASH, 0x62]
    else if c == 0x09 then [BACKSLASH, 0x74]
    else if c == 0x0A then [BACKSLASH, 0x6E]
    else if c == 0x0C then [BACKSLASH, 0x66]
    else if c == 0x0D then [BACKSLASH, 0x72]
    else if c < 0x20 then UnicodeEscape(c)
    else if IsLeading(c) then (if i + 1 < |s| && IsTrailing(s[i + 1]) then [c] else UnicodeEscape(c))
    else if IsTrailing(c) then (if i > 0 && IsLeading(s[i - 1]) then [c] else UnicodeEscape(c))
    else [c]
  }

  function EscapeFrom(s: JsString, i: nat): JsString
    requires i <= |s|
    decreases |s| - i
  {
    if i == |s| then [] else EscapeAt(s, i) + EscapeFrom(s, i + 1)
  }

  function Quote(s: JsString): JsString
  {
    [QUOTE] + EscapeFrom(s, 0) + [QUOTE]
  }

  function Serialize(v: JValue): JsString
  {
    match v
    case JNull => NULL_TEXT
    case JBool(b) => if b then TRUE_TEXT else FALSE_TEXT
    case JNum(n) => IntText(n)
    case JStr(s) => Quote(s)
    case JArr(items) => Bmp("[") + SerializeItems(items) + Bmp("]")
    case JObj(members) => Bmp("{") + SerializeMembers(members) + Bmp("}")
  }

  function SerializeItems(items: seq<JValue>): JsString
  {
    if items == [] then []
    else if |items| == 1 then Serialize(items[0])
    else Serialize(items[0]) + COMMA + SerializeItems(items[1..])
  }

  function SerializeMembers(members: seq<Member>): JsString
  {
    if members == [] then []
    else
      var m := Quote(members[0].key) + Bmp(":") + Serialize(members[0].value);
      if |members| == 1 then m else m + COMMA + SerializeMembers(members[1..])
  }
}
