/**
 * The canonical JSON text a capability is signed over: `json.dumps` with
 * `sort_keys=True`, `separators=(",", ":")` and the default `ensure_ascii=True`,
 * for the value shapes a capability's dictionary holds. A reference decoder
 * reads that text back, which shows the encoding loses nothing but the order
 * of object members.
 */
module JsonText {
  import opened Wrappers
  import opened Text

  datatype Json =
    | JNull
    | JBool(b: bool)
    | JInt(i: int)
    | JStr(s: string)
    | JObject(members: seq<(string, Json)>)

  // ---------------------------------------------------- key order

  /** Python's `<` on `str`: lexicographic by code point. */
  predicate StrLt(a: string, b: string) {
    if a == [] then b != []
    else if b == [] then false
    else a[0] < b[0] || (a[0] == b[0] && StrLt(a[1..], b[1..]))
  }

  lemma {:induction false} StrLtAsymmetric(a: string, b: string)
    ensures !(StrLt(a, b) && StrLt(b, a))
  {
    if a != [] && b != [] && a[0] == b[0] {
      StrLtAsymmetric(a[1..], b[1..]);
    }
  }

  /** Put one member before the first member whose key is not smaller than its own. */
  function Insert<V>(p: (string, V), qs: seq<(string, V)>): (r: seq<(string, V)>)
    ensures |r| == |qs| + 1
    ensures r[0] == p || (qs != [] && r[0] == qs[0])
  {
    if qs == [] || !StrLt(qs[0].0, p.0) then [p] + qs
    else [qs[0]] + Insert(p, qs[1..])
  }

  /** `sorted(d.items())` for a dict, whose keys are distinct: an insertion sort on the key. */
  function SortByKey<V>(ps: seq<(string, V)>): (r: seq<(string, V)>)
    ensures |r| == |ps|
  {
    if ps == [] then [] else Insert(ps[0], SortByKey(ps[1..]))
  }

  predicate SortedByKey<V>(ps: seq<(string, V)>) {
    forall i :: 0 < i < |ps| ==> !StrLt(ps[i].0, ps[i - 1].0)
  }

  lemma {:induction false} InsertSorted<V>(p: (string, V), qs: seq<(string, V)>)
    requires SortedByKey(qs)
    ensures SortedByKey(Insert(p, qs))
    ensures multiset(Insert(p, qs)) == multiset(qs) + multiset{p}
  {
    if qs != [] && StrLt(qs[0].0, p.0) {
      InsertSorted(p, qs[1..]);
      StrLtAsymmetric(qs[0].0, p.0);
      assert qs == [qs[0]] + qs[1..];
    }
  }

  /** The members come out ordered by key, and none is lost or added. */
  lemma {:induction false} SortByKeyCorrect<V>(ps: seq<(string, V)>)
    ensures SortedByKey(SortByKey(ps))
    ensures multiset(SortByKey(ps)) == multiset(ps)
  {
    if ps != [] {
      SortByKeyCorrect(ps[1..]);
      InsertSorted(ps[0], SortByKey(ps[1..]));
      assert ps == [ps[0]] + ps[1..];
    }
  }

  /** Apply `f` to every member's value, keeping keys and order. */
  function MapValues<V, W>(f: V -> W, ps: seq<(string, V)>): (r: seq<(string, W)>)
    ensures |r| == |ps|
    ensures forall i :: 0 <= i < |ps| ==> r[i] == (ps[i].0, f(ps[i].1))
  {
    if ps == [] then [] else [(ps[0].0, f(ps[0].1))] + MapValues(f, ps[1..])
  }

  /** Mapping two member lists agrees when they agree key by key and on the images of their values. */
  lemma MapValuesPointwise<V, W>(f: V -> W, ps1: seq<(string, V)>, ps2: seq<(string, V)>)
    requires |ps1| == |ps2|
    requires forall i :: 0 <= i < |ps1| ==> ps1[i].0 == ps2[i].0 && f(ps1[i].1) == f(ps2[i].1)
    ensures MapValues(f, ps1) == MapValues(f, ps2)
  {
  }

  lemma {:induction false} InsertCommutes<V, W>(f: V -> W, p: (string, V), qs: seq<(string, V)>)
    ensures Insert((p.0, f(p.1)), MapValues(f, qs)) == MapValues(f, Insert(p, qs))
  {
    if qs != [] {
      InsertCommutes(f, p, qs[1..]);
      assert MapValues(f, qs)[1..] == MapValues(f, qs[1..]);
    }
  }

  /** Sorting by key does not look at values, so it commutes with transforming them. */
  lemma {:induction false} SortCommutes<V, W>(f: V -> W, ps: seq<(string, V)>)
    ensures SortByKey(MapValues(f, ps)) == MapValues(f, SortByKey(ps))
  {
    if ps != [] {
      SortCommutes(f, ps[1..]);
      InsertCommutes(f, ps[0], SortByKey(ps[1..]));
      assert MapValues(f, ps)[1..] == MapValues(f, ps[1..]);
    }
  }

  // ---------------------------------------------------- string escapes

  function Hex4(n: nat): (h: string)
    requires n < 0x10000
    ensures |h| == 4 && IsAscii(h)
  {
    var q1 := n / 16;
    var q2 := q1 / 16;
    [HexLower(q2 / 16), HexLower(q2 % 16), HexLower(q1 % 16), HexLower(n % 16)]
  }

  /**
   * One character as `json.dumps` writes it with `ensure_ascii=True`: a short
   * escape for the quote, backslash and five control characters, the character
   * itself when printable ASCII, otherwise `\uXXXX` in lower-case hexadecimal,
   * as a surrogate pair above U+FFFF.
   */
  function EscapeChar(c: char): (e: string)
    ensures |e| >= 1 && e[0] != '"'
    ensures IsAscii(e)
  {
    var n := c as int;
    if c == '"' then "\\\""
    else if c == '\\' then "\\\\"
    else if c == '\n' then "\\n"
    else if c == '\r' then "\\r"
    else if c == '\t' then "\\t"
    else if n == 8 then "\\b"
    else if n == 12 then "\\f"
    else if 0x20 <= n < 0x7f then [c]
    else if n < 0x10000 then "\\u" + Hex4(n)
    else
      var v := n - 0x10000;
      "\\u" + Hex4(0xD800 + v / 0x400) + "\\u" + Hex4(0xDC00 + v % 0x400)
  }

  function EscapeBody(s: string): string {
    if s == [] then "" else EscapeChar(s[0]) + EscapeBody(s[1..])
  }

  /** A JSON string literal. */
  function Quote(s: string): string {
    "\"" + (EscapeBody(s) + "\"")
  }

  // ---------------------------------------------------- the encoder

  /** `json.dumps(j, sort_keys=True, separators=(",", ":"))`. */
  function Dumps(j: Json): string {
    match j
    case JNull => "null"
    case JBool(b) => if b then "true" else "false"
    case JInt(i) => IntToDecimal(i)
    case JStr(s) => Quote(s)
    case JObject(ms) => "{" + MembersClose(SortByKey(RenderMembers(j, ms)))
  }

  /** Each member's key with its value's text, in the dict's own order; `parent` holds the members. */
  function RenderMembers(ghost parent: Json, ms: seq<(string, Json)>): seq<(string, string)>
    requires forall i :: 0 <= i < |ms| ==> ms[i].1 < parent
    decreases parent, |ms|
  {
    if ms == [] then [] else [(ms[0].0, Dumps(ms[0].1))] + RenderMembers(parent, ms[1..])
  }

  /** `"key":value` for each member, separated by commas, then the closing brace. */
  function MembersClose(ps: seq<(string, string)>): string {
    if ps == [] then "}"
    else Quote(ps[0].0) + (":" + (ps[0].1 + (if |ps| == 1 then "}" else "," + MembersClose(ps[1..]))))
  }

  /** What the text determines: every object's members sorted by key. */
  function Canon(j: Json): Json {
    match j
    case JObject(ms) => JObject(SortByKey(CanonMembers(j, ms)))
    case _ => j
  }

  function CanonMembers(ghost parent: Json, ms: seq<(string, Json)>): seq<(string, Json)>
    requires forall i :: 0 <= i < |ms| ==> ms[i].1 < parent
    decreases parent, |ms|
  {
    if ms == [] then [] else [(ms[0].0, Canon(ms[0].1))] + CanonMembers(parent, ms[1..])
  }

  lemma {:induction false} RenderIsMapValues(parent: Json, ms: seq<(string, Json)>)
    requires forall i :: 0 <= i < |ms| ==> ms[i].1 < parent
    ensures RenderMembers(parent, ms) == MapValues(Dumps, ms)
    ensures CanonMembers(parent, ms) == MapValues(Canon, ms)
    decreases |ms|
  {
    if ms != [] {
      RenderIsMapValues(parent, ms[1..]);
    }
  }

  // ---------------------------------------------------- a reference decoder

  function HexValue(c: char): Option<nat> {
    if '0' <= c <= '9' then Some(c as int - 48)
    else if 'a' <= c <= 'f' then Some(c as int - 87)
    else None
  }

  function Hex4Value(h: string): (r: Option<nat>)
    requires |h| == 4
    ensures r.Some? ==> r.value < 0x10000
  {
    match (HexValue(h[0]), HexValue(h[1]), HexValue(h[2]), HexValue(h[3]))
    case (Some(a), Some(b), Some(c), Some(d)) =>
      if a < 16 && b < 16 && c < 16 && d < 16 then Some(((a * 16 + b) * 16 + c) * 16 + d) else None
    case _ => None
  }

  /** Read one possibly escaped character. */
  function UnescapeOne(t: string): (r: Option<(char, string)>)
    requires t != []
    ensures r.Some? ==> |r.value.1| < |t|
  {
    if t[0] != '\\' then Some((t[0], t[1..]))
    else if |t| < 2 then None
    else if t[1] == '"' then Some(('"', t[2..]))
    else if t[1] == '\\' then Some(('\\', t[2..]))
    else if t[1] == 'n' then Some(('\n', t[2..]))
    else if t[1] == 'r' then Some(('\r', t[2..]))
    else if t[1] == 't' then Some(('\t', t[2..]))
    else if t[1] == 'b' then Some((8 as char, t[2..]))
    else if t[1] == 'f' then Some((12 as char, t[2..]))
    else if t[1] != 'u' || |t| < 6 then None
    else match Hex4Value(t[2..6])
      case None => None
      case Some(hi) =>
        if hi < 0xD800 || 0xE000 <= hi then Some((hi as char, t[6..]))
        else if 0xDC00 <= hi || |t| < 12 || t[6..8] != "\\u" then None
        else match Hex4Value(t[8..12])
          case None => None
          case Some(lo) =>
            if lo < 0xDC00 || 0xE000 <= lo then None
            else Some(((0x10000 + (hi - 0xD800) * 0x400 + (lo - 0xDC00)) as char, t[12..]))
  }

  /** Read a string literal's body up to and including its closing quote. */
  function ParseStringBody(t: string): (r: Option<(string, string)>)
    ensures r.Some? ==> |r.value.1| < |t|
    decreases |t|
  {
    if t == [] then None
    else if t[0] == '"' then Some(([], t[1..]))
    else match UnescapeOne(t)
      case None => None
      case Some((c, rest)) =>
        match ParseStringBody(rest)
        case None => None
        case Some((s, rest')) => Some(([c] + s, rest'))
  }

  function ParseInt(t: string): (r: Option<(int, string)>)
    ensures r.Some? ==> |r.value.1| < |t|
  {
    if t != [] && t[0] == '-' then
      var n := DigitRun(t[1..]);
      var magnitude: int := DecimalValue(t[1..][..n]);
      if n == 0 then None else Some((-magnitude, t[1..][n..]))
    else
      var n := DigitRun(t);
      if n == 0 then None else Some((DecimalValue(t[..n]), t[n..]))
  }

  function ParseValue(t: string): (r: Option<(Json, string)>)
    ensures r.Some? ==> |r.value.1| < |t|
    decreases |t|, 1
  {
    if t == [] then None
    else if t[0] == 'n' then (if |t| >= 4 && t[..4] == "null" then Some((JNull, t[4..])) else None)
    else if t[0] == 't' then (if |t| >= 4 && t[..4] == "true" then Some((JBool(true), t[4..])) else None)
    else if t[0] == 'f' then (if |t| >= 5 && t[..5] == "false" then Some((JBool(false), t[5..])) else None)
    else if t[0] == '"' then
      match ParseStringBody(t[1..])
      case None => None
      case Some((s, rest)) => Some((JStr(s), rest))
    else if t[0] == '{' then
      if |t| >= 2 && t[1] == '}' then Some((JObject([]), t[2..]))
      else
        match ParseMembers(t[1..])
        case None => None
        case Some((ms, rest)) => Some((JObject(ms), rest))
    else
      match ParseInt(t)
      case None => None
      case Some((i, rest)) => Some((JInt(i), rest))
  }

  /** Read `"key":value` members separated by commas, through the closing brace. */
  function ParseMembers(t: string): (r: Option<(seq<(string, Json)>, string)>)
    ensures r.Some? ==> |r.value.1| < |t|
    decreases |t|, 0
  {
    if t == [] || t[0] != '"' then None
    else match ParseStringBody(t[1..])
      case None => None
      case Some((k, r1)) =>
        if r1 == [] || r1[0] != ':' then None
        else match ParseValue(r1[1..])
          case None => None
          case Some((v, r2)) =>
            if r2 == [] then None
            else if r2[0] == '}' then Some(([(k, v)], r2[1..]))
            else if r2[0] != ',' then None
            else match ParseMembers(r2[1..])
              case None => None
              case Some((ms, r3)) => Some(([(k, v)] + ms, r3))
  }

  // ---------------------------------------------------- the decoder inverts the encoder

  lemma HexRoundTrip(n: nat)
    requires n < 0x10000
    ensures Hex4Value(Hex4(n)) == Some(n)
  {
    var h := Hex4(n);
    var q1 := n / 16;
    var q2 := q1 / 16;
    assert n == q1 * 16 + n % 16;
    assert q1 == q2 * 16 + q1 % 16;
    assert q2 == (q2 / 16) * 16 + q2 % 16;
    assert q2 / 16 < 16;
    assert HexValue(h[0]) == Some(q2 / 16);
    assert HexValue(h[1]) == Some(q2 % 16);
    assert HexValue(h[2]) == Some(q1 % 16);
    assert HexValue(h[3]) == Some(n % 16);
  }

  /** A character of the Basic Multilingual Plane outside the printable range reads back from its `\\uXXXX` escape. */
  lemma UnescapeBmp(n: nat, y: string)
    requires n < 0x10000 && (n < 0xD800 || 0xE000 <= n)
    ensures UnescapeOne("\\u" + Hex4(n) + y) == Some((n as char, y))
  {
    var t := "\\u" + Hex4(n) + y;
    HexRoundTrip(n);
    assert t[2..6] == Hex4(n);
    assert t[6..] == y;
  }

  /** A character beyond the Basic Multilingual Plane reads back from its surrogate-pair escape. */
  lemma UnescapeAstral(c: char, y: string)
    requires c as int >= 0x10000
    ensures UnescapeOne(EscapeChar(c) + y) == Some((c, y))
  {
    var v := c as int - 0x10000;
    var hi, lo := 0xD800 + v / 0x400, 0xDC00 + v % 0x400;
    var t := EscapeChar(c) + y;
    assert t == "\\u" + Hex4(hi) + "\\u" + Hex4(lo) + y;
    HexRoundTrip(hi);
    HexRoundTrip(lo);
    assert t[2..6] == Hex4(hi);
    assert t[6..8] == "\\u";
    assert t[8..12] == Hex4(lo);
    assert t[12..] == y;
  }

  lemma UnescapeEscape(c: char, y: string)
    ensures UnescapeOne(EscapeChar(c) + y) == Some((c, y))
  {
    var n := c as int;
    var t := EscapeChar(c) + y;
    if c == '"' || c == '\\' || c == '\n' || c == '\r' || c == '\t' || n == 8 || n == 12 {
      assert t[2..] == y;
    } else if 0x20 <= n < 0x7f {
      assert t[1..] == y;
    } else if n < 0x10000 {
      UnescapeBmp(n, y);
    } else {
      UnescapeAstral(c, y);
    }
  }

  lemma ParseStringBodyStep(t: string, c: char, rest: string)
    requires t != [] && t[0] != '"' && UnescapeOne(t) == Some((c, rest))
    ensures ParseStringBody(t) == match ParseStringBody(rest)
                                 case None => None
                                 case Some((s, rest')) => Some(([c] + s, rest'))
  {
  }

  /** A string literal's body is read back exactly, and reading stops at its closing quote. */
  lemma {:induction false} ParseQuoted(s: string, y: string)
    ensures ParseStringBody(EscapeBody(s) + "\"" + y) == Some((s, y))
  {
    if s == [] {
      assert (EscapeBody(s) + "\"" + y)[1..] == y;
    } else {
      var e := EscapeChar(s[0]);
      var rest := EscapeBody(s[1..]) + "\"" + y;
      var t := EscapeBody(s) + "\"" + y;
      assert t == e + rest;
      assert t[0] == e[0] != '"';
      UnescapeEscape(s[0], rest);
      ParseQuoted(s[1..], y);
      ParseStringBodyStep(t, s[0], rest);
      assert [s[0]] + s[1..] == s;
    }
  }

  lemma ParseIntOfDecimal(i: int, x: string)
    requires x == [] || !IsDigit(x[0])
    ensures ParseInt(IntToDecimal(i) + x) == Some((i, x))
  {
    var t := IntToDecimal(i) + x;
    DecimalSign(i, x);
    if i < 0 {
      var d := NatToDecimal(-i);
      DigitRunOfDigits(d, x);
      DecimalRoundTrip(-i);
      assert t[1..][..|d|] == d;
      assert t[1..][|d|..] == x;
    } else {
      var d := NatToDecimal(i);
      DigitRunOfDigits(d, x);
      DecimalRoundTrip(i);
      assert t[..|d|] == d;
      assert t[|d|..] == x;
    }
  }

  /** What may follow a value inside canonical text: nothing, a comma, or a closing brace. */
  predicate Delimited(x: string) {
    x == [] || x[0] == ',' || x[0] == '}'
  }

  lemma ParseMembersStep(t: string, k: string, r1: string, v: Json, r2: string)
    requires t != [] && t[0] == '"' && ParseStringBody(t[1..]) == Some((k, r1))
    requires r1 != [] && r1[0] == ':' && ParseValue(r1[1..]) == Some((v, r2))
    requires r2 != [] && (r2[0] == '}' || r2[0] == ',')
    ensures ParseMembers(t) == if r2[0] == '}' then Some(([(k, v)], r2[1..]))
                               else match ParseMembers(r2[1..])
                                 case None => None
                                 case Some((ms, r3)) => Some(([(k, v)] + ms, r3))
  {
  }

  lemma AppendAssoc(a: string, b: string, c: string)
    ensures (a + b) + c == a + (b + c)
  {
  }

  /** The text after an object's first member: its closing brace, or a comma and the remaining members. */
  function MembersTail(ps: seq<(string, Json)>): string
    requires ps != []
  {
    if |ps| == 1 then "}" else "," + MembersClose(MapValues(Dumps, ps[1..]))
  }

  lemma MembersCloseFirst(ps: seq<(string, Json)>, x: string)
    requires ps != []
    ensures MembersClose(MapValues(Dumps, ps)) + x
         == "\"" + (EscapeBody(ps[0].0) + "\"" + (":" + (Dumps(ps[0].1) + (MembersTail(ps) + x))))
  {
    var k, d, tail := ps[0].0, Dumps(ps[0].1), MembersTail(ps);
    var r := MapValues(Dumps, ps);
    assert r[0] == (k, d);
    assert r[1..] == MapValues(Dumps, ps[1..]);
    assert MembersClose(r) == Quote(k) + (":" + (d + tail));
    AppendAssoc(Quote(k), ":" + (d + tail), x);
    AppendAssoc(":", d + tail, x);
    AppendAssoc(d, tail, x);
    AppendAssoc("\"", EscapeBody(k) + "\"", ":" + (d + (tail + x)));
    AppendAssoc(EscapeBody(k), "\"", ":" + (d + (tail + x)));
  }

  /** The members of an object, in the order written, are read back with their values canonical. */
  lemma {:induction false} ParseMembersText(parent: Json, ps: seq<(string, Json)>, x: string)
    requires ps != []
    requires forall i :: 0 <= i < |ps| ==> ps[i].1 < parent
    requires Delimited(x)
    ensures ParseMembers(MembersClose(MapValues(Dumps, ps)) + x) == Some((MapValues(Canon, ps), x))
    decreases parent, 0, |ps|
  {
    var k, v := ps[0].0, ps[0].1;
    var tail := MembersTail(ps) + x;
    var r1 := ":" + (Dumps(v) + tail);
    var t := MembersClose(MapValues(Dumps, ps)) + x;
    MembersCloseFirst(ps, x);
    assert t[1..] == EscapeBody(k) + "\"" + r1;
    ParseQuoted(k, r1);
    assert r1[1..] == Dumps(v) + tail;
    ParseDumps(v, tail);
    ParseMembersStep(t, k, r1, Canon(v), tail);
    if |ps| == 1 {
      assert tail[1..] == x;
      assert MapValues(Canon, ps) == [(k, Canon(v))];
    } else {
      AppendAssoc(",", MembersClose(MapValues(Dumps, ps[1..])), x);
      assert tail[1..] == MembersClose(MapValues(Dumps, ps[1..])) + x;
      ParseMembersText(parent, ps[1..], x);
      assert MapValues(Canon, ps) == [(k, Canon(v))] + MapValues(Canon, ps[1..]);
    }
  }

  lemma ParseIntText(i: int, x: string)
    requires Delimited(x)
    ensures ParseValue(IntToDecimal(i) + x) == Some((JInt(i), x))
  {
    var t := IntToDecimal(i) + x;
    ParseIntOfDecimal(i, x);
    DecimalSign(i, x);
    assert t[0] == '-' || IsDigit(t[0]);
  }

  lemma ParseStrText(s: string, x: string)
    ensures ParseValue(Quote(s) + x) == Some((JStr(s), x))
  {
    var t := Quote(s) + x;
    assert t[0] == '"';
    assert t[1..] == EscapeBody(s) + "\"" + x;
    ParseQuoted(s, x);
  }

  lemma ParseValueScalar(j: Json, x: string)
    requires !j.JObject?
    requires Delimited(x)
    ensures ParseValue(Dumps(j) + x) == Some((j, x))
  {
    var t := Dumps(j) + x;
    match j
    case JNull =>
      assert t[..4] == "null" && t[4..] == x;
    case JBool(b) =>
      if b {
        assert t[..4] == "true" && t[4..] == x;
      } else {
        assert t[..5] == "false" && t[5..] == x;
      }
    case JInt(i) =>
      ParseIntText(i, x);
    case JStr(s) =>
      ParseStrText(s, x);
  }

  lemma ParseValueObject(t: string)
    requires |t| >= 2 && t[0] == '{'
    ensures ParseValue(t) == if t[1] == '}' then Some((JObject([]), t[2..]))
                             else match ParseMembers(t[1..])
                               case None => None
                               case Some((ms, rest)) => Some((JObject(ms), rest))
  {
  }

  lemma SortedMembersBelow(j: Json)
    requires j.JObject?
    ensures forall i :: 0 <= i < |SortByKey(j.members)| ==> SortByKey(j.members)[i].1 < j
  {
    var ms, sorted := j.members, SortByKey(j.members);
    SortByKeyCorrect(ms);
    forall i | 0 <= i < |sorted| ensures sorted[i].1 < j {
      assert sorted[i] in multiset(ms);
      var k :| 0 <= k < |ms| && ms[k] == sorted[i];
    }
  }

  lemma CanonicalObjectText(j: Json)
    requires j.JObject?
    ensures Dumps(j) == "{" + MembersClose(MapValues(Dumps, SortByKey(j.members)))
    ensures Canon(j) == JObject(MapValues(Canon, SortByKey(j.members)))
  {
    RenderIsMapValues(j, j.members);
    SortCommutes(Dumps, j.members);
    SortCommutes(Canon, j.members);
  }

  /**
   * Reading the canonical text of any value back gives the value with every
   * object's members sorted by key, and stops exactly at the end of the text.
   */
  lemma {:induction false} ParseDumps(j: Json, x: string)
    requires Delimited(x)
    ensures ParseValue(Dumps(j) + x) == Some((Canon(j), x))
    decreases j, 2
  {
    if !j.JObject? {
      ParseValueScalar(j, x);
    } else {
      ParseObjectDumps(j, x);
    }
  }

  lemma {:induction false} ParseObjectDumps(j: Json, x: string)
    requires j.JObject?
    requires Delimited(x)
    ensures ParseValue(Dumps(j) + x) == Some((Canon(j), x))
    decreases j, 1
  {
    var t := Dumps(j) + x;
    CanonicalObjectText(j);
    var sorted := SortByKey(j.members);
    var body := MembersClose(MapValues(Dumps, sorted));
    AppendAssoc("{", body, x);
    assert t == "{" + (body + x);
    ParseValueObject(t);
    if sorted == [] {
      assert t[1] == '}' && t[2..] == x;
    } else {
      SortedMembersBelow(j);
      ParseMembersText(j, sorted, x);
      assert t[1..] == body + x;
      MembersCloseFirst(sorted, x);
      assert t[1] == '"';
    }
  }

  /** Equal canonical text means equal values up to the order of object members. */
  lemma DumpsInjective(j1: Json, j2: Json)
    requires Dumps(j1) == Dumps(j2)
    ensures Canon(j1) == Canon(j2)
  {
    ParseDumps(j1, []);
    ParseDumps(j2, []);
    assert Dumps(j1) + [] == Dumps(j1);
    assert Dumps(j2) + [] == Dumps(j2);
  }

  // ---------------------------------------------------- ASCII output

  lemma {:induction false} EscapeBodyAscii(s: string)
    ensures IsAscii(EscapeBody(s))
  {
    if s != [] {
      EscapeBodyAscii(s[1..]);
      AsciiAppend(EscapeChar(s[0]), EscapeBody(s[1..]));
    }
  }

  lemma QuoteAscii(s: string)
    ensures IsAscii(Quote(s))
  {
    EscapeBodyAscii(s);
    AsciiAppend(EscapeBody(s), "\"");
    AsciiAppend("\"", EscapeBody(s) + "\"");
  }

  lemma {:induction false} MembersCloseAscii(parent: Json, ps: seq<(string, Json)>)
    requires forall i :: 0 <= i < |ps| ==> ps[i].1 < parent
    ensures IsAscii(MembersClose(MapValues(Dumps, ps)))
    decreases parent, 0, |ps|
  {
    if ps != [] {
      var r := MapValues(Dumps, ps);
      var d := Dumps(ps[0].1);
      assert r[0] == (ps[0].0, d);
      assert r[1..] == MapValues(Dumps, ps[1..]);
      var tail := if |ps| == 1 then "}" else "," + MembersClose(r[1..]);
      if |ps| > 1 {
        MembersCloseAscii(parent, ps[1..]);
        AsciiAppend(",", MembersClose(r[1..]));
      }
      DumpsAscii(ps[0].1);
      QuoteAscii(ps[0].0);
      AsciiAppend(d, tail);
      AsciiAppend(":", d + tail);
      AsciiAppend(Quote(ps[0].0), ":" + (d + tail));
    }
  }

  /** With `ensure_ascii=True` every character of the text is ASCII, so `.encode()` is one byte per character. */
  lemma {:induction false} DumpsAscii(j: Json)
    ensures IsAscii(Dumps(j))
    decreases j, 1
  {
    match j
    case JNull =>
    case JBool(b) =>
    case JInt(i) => IntToDecimalAscii(i);
    case JStr(s) => QuoteAscii(s);
    case JObject(ms) =>
      CanonicalObjectText(j);
      SortedMembersBelow(j);
      MembersCloseAscii(j, SortByKey(ms));
      AsciiAppend("{", MembersClose(MapValues(Dumps, SortByKey(ms))));
  }

  // ---------------------------------------------------- reading a dict

  /** `d.get(key)` on a decoded object (the first member with that key). */
  function Lookup(ms: seq<(string, Json)>, key: string): Option<Json> {
    if ms == [] then None else if ms[0].0 == key then Some(ms[0].1) else Lookup(ms[1..], key)
  }

  predicate DistinctKeys<V>(ps: seq<(string, V)>) {
    forall i, j :: 0 <= i < j < |ps| ==> ps[i].0 != ps[j].0
  }

  lemma {:induction false} LookupInsert(p: (string, Json), qs: seq<(string, Json)>, key: string)
    requires forall i :: 0 <= i < |qs| ==> qs[i].0 != p.0
    ensures Lookup(Insert(p, qs), key) == if key == p.0 then Some(p.1) else Lookup(qs, key)
  {
    if qs != [] && StrLt(qs[0].0, p.0) {
      LookupInsert(p, qs[1..], key);
    }
  }

  /** For a dict, whose keys are distinct, sorting the members does not change what a key looks up. */
  lemma {:induction false} LookupSorted(ps: seq<(string, Json)>, key: string)
    requires DistinctKeys(ps)
    ensures Lookup(SortByKey(ps), key) == Lookup(ps, key)
  {
    if ps != [] {
      var rest := SortByKey(ps[1..]);
      LookupSorted(ps[1..], key);
      SortByKeyCorrect(ps[1..]);
      forall i | 0 <= i < |rest| ensures rest[i].0 != ps[0].0 {
        assert rest[i] in multiset(ps[1..]);
        var k :| 0 <= k < |ps[1..]| && ps[1..][k] == rest[i];
        assert ps[k + 1] == rest[i];
      }
      LookupInsert(ps[0], rest, key);
    }
  }

  lemma {:induction false} LookupFirst(ms: seq<(string, Json)>, i: nat, key: string)
    requires i < |ms| && ms[i].0 == key
    requires forall j :: 0 <= j < i ==> ms[j].0 != key
    ensures Lookup(ms, key) == Some(ms[i].1)
  {
    if i > 0 {
      LookupFirst(ms[1..], i - 1, key);
    }
  }

  /** In a dict every member is found under its own key. */
  lemma LookupMember(ms: seq<(string, Json)>, i: nat)
    requires DistinctKeys(ms) && i < |ms|
    ensures Lookup(ms, ms[i].0) == Some(ms[i].1)
  {
    LookupFirst(ms, i, ms[i].0);
  }

  lemma {:induction false} LookupAbsent(ms: seq<(string, Json)>, key: string)
    requires forall j :: 0 <= j < |ms| ==> ms[j].0 != key
    ensures Lookup(ms, key) == None
  {
    if ms != [] {
      LookupAbsent(ms[1..], key);
    }
  }

  // ---------------------------------------------------- what the text depends on

  lemma {:induction false} SortSorted<V>(ps: seq<(string, V)>)
    requires SortedByKey(ps)
    ensures SortByKey(ps) == ps
  {
    if ps != [] {
      assert SortedByKey(ps[1..]);
      SortSorted(ps[1..]);
      assert ps == [ps[0]] + ps[1..];
    }
  }

  /** An object's text is fixed by its members' keys and value texts. */
  lemma DumpsByMembers(ms1: seq<(string, Json)>, ms2: seq<(string, Json)>)
    requires MapValues(Dumps, ms1) == MapValues(Dumps, ms2)
    ensures Dumps(JObject(ms1)) == Dumps(JObject(ms2))
  {
    CanonicalObjectText(JObject(ms1));
    CanonicalObjectText(JObject(ms2));
    SortCommutes(Dumps, ms1);
    SortCommutes(Dumps, ms2);
  }

  /** `sort_keys=True`: the order in which a dict holds its members does not reach the text. */
  lemma DumpsIgnoresMemberOrder(ms: seq<(string, Json)>)
    ensures Dumps(JObject(SortByKey(ms))) == Dumps(JObject(ms))
  {
    var sorted := SortByKey(ms);
    SortByKeyCorrect(ms);
    SortSorted(sorted);
    CanonicalObjectText(JObject(ms));
    CanonicalObjectText(JObject(sorted));
  }
}
