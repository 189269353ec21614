/** Canonical text is decodable, and it is equal exactly when the meanings are. */
module CanonicalJsonProofs {
  import opened Prelude
  import opened Sorting
  import opened CanonicalJson

  // ---- Sorted members --------------------------------------------------------------

  function EntryOf<N>(nc: Numbers<N>, m: Member<N>): Entry { Entry(m.key, Serialize(nc, m.value)) }
  function CanonMember<N>(m: Member<N>): Member<N> { Member(m.key, Canon(m.value)) }

  lemma {:induction false} EntriesAreMapped<N>(nc: Numbers<N>, members: seq<Member<N>>)
    ensures Entries(nc, members) == Map(m => EntryOf(nc, m), members)
    ensures CanonMembers(members) == Map(m => CanonMember(m), members)
  {
    if members != [] {
      EntriesAreMapped(nc, members[1..]);
    }
  }

  /** Sorting the serialised entries is serialising the sorted members; likewise for the canonical members. */
  lemma SortedMembers<N>(nc: Numbers<N>, members: seq<Member<N>>)
    ensures Sort(Entries(nc, members), EntryLe) == Entries(nc, Sort(members, MemberLe))
    ensures Sort(CanonMembers(members), MemberLe) == CanonMembers(Sort(members, MemberLe))
  {
    EntriesAreMapped(nc, members);
    EntriesAreMapped(nc, Sort(members, MemberLe));
    SortMaps(members, m => EntryOf(nc, m), MemberLe, EntryLe);
    SortMaps(members, m => CanonMember(m), MemberLe, MemberLe);
  }

  // ---- Decoding --------------------------------------------------------------------

  /** Text that may follow a value: none, or a unit no number continues with. */
  predicate Stops(rest: Text) { rest == [] || !NumberUnit(rest[0]) }

  ghost predicate RoundTrips<N>(nc: Numbers<N>, v: Json<N>) {
    forall rest | Stops(rest) :: ParsesTo(nc, v, rest)
  }

  ghost predicate ParsesTo<N>(nc: Numbers<N>, v: Json<N>, rest: Text) {
    ParseValue(nc, Serialize(nc, v) + rest) == Some((Canon(v), rest))
  }

  lemma FirstUnit<N(!new)>(nc: Numbers<N>, v: Json<N>)
    requires Lawful(nc)
    ensures Serialize(nc, v) != [] && Serialize(nc, v)[0] != 93
  {
    if v.JNumber? {
      assert RendersWell(nc, v.n);
    }
  }

  lemma {:induction false} NumberSpan(t: Text, rest: Text)
    requires (forall u | u in t :: NumberUnit(u)) && Stops(rest)
    ensures NumberLength(t + rest) == |t|
  {
    if t == [] {
      assert t + rest == rest;
    } else {
      NumberSpan(t[1..], rest);
      assert (t + rest)[1..] == t[1..] + rest;
    }
  }

  lemma NumberRoundTrip<N(!new)>(nc: Numbers<N>, n: N, rest: Text)
    requires Lawful(nc) && Stops(rest)
    ensures ParsesTo(nc, JNumber(n), rest)
  {
    assert RendersWell(nc, n);
    var t := nc.render(n);
    NumberSpan(t, rest);
    assert (t + rest)[..|t|] == t && (t + rest)[|t|..] == rest;
  }

  lemma WordRoundTrip<N>(nc: Numbers<N>, v: Json<N>, rest: Text)
    requires v.JNull? || v.JBool?
    ensures ParsesTo(nc, v, rest)
  {
    var t := Serialize(nc, v);
    assert (t + rest)[..|t|] == t && (t + rest)[|t|..] == rest;
  }

  lemma QuotedRoundTrip(s: Text, rest: Text)
    ensures (Quote(s) + rest)[0] == 34
    ensures Unescape((Quote(s) + rest)[1..]) == Some((s, rest))
  {
    StringRoundTrip(s, rest);
    assert (Quote(s) + rest)[1..] == Escape(s) + [34] + rest;
  }

  lemma ValueRoundTrip<N(!new)>(nc: Numbers<N>, v: Json<N>, rest: Text)
    requires RoundTrips(nc, v) && Stops(rest)
    ensures ParseValue(nc, Serialize(nc, v) + rest) == Some((Canon(v), rest))
  {
    hide ParseValue, Serialize, Canon;
    assert ParsesTo(nc, v, rest);
  }

  lemma JoinedItems<N>(nc: Numbers<N>, items: seq<Json<N>>)
    requires items != []
    ensures Join(Texts(nc, items)) ==
            if |items| == 1 then Serialize(nc, items[0]) else Serialize(nc, items[0]) + [44] + Join(Texts(nc, items[1..]))
  {
    hide Serialize;
  }

  lemma {:induction false} ItemsRoundTrip<N(!new)>(nc: Numbers<N>, items: seq<Json<N>>, rest: Text)
    requires items != [] && forall v | v in items :: RoundTrips(nc, v)
    ensures ParseItems(nc, Join(Texts(nc, items)) + [93] + rest) == Some((CanonItems(items), rest))
  {
    hide ParseValue, Serialize, Canon, RoundTrips, Join, Texts;
    JoinedItems(nc, items);
    var first, more := items[0], items[1..];
    var follow := if more == [] then [93] + rest else [44] + (Join(Texts(nc, more)) + [93] + rest);
    var all := Join(Texts(nc, items)) + [93] + rest;
    assert Stops(follow);
    assert all == Serialize(nc, first) + follow;
    ValueRoundTrip(nc, first, follow);
    if more == [] {
      assert follow[1..] == rest;
      assert CanonItems(items) == [Canon(first)];
    } else {
      ItemsRoundTrip(nc, more, rest);
      assert follow[1..] == Join(Texts(nc, more)) + [93] + rest;
    }
  }

  lemma MemberRoundTrip<N(!new)>(nc: Numbers<N>, m: Member<N>, rest: Text)
    requires RoundTrips(nc, m.value) && Stops(rest)
    ensures ParseMember(nc, Quote(m.key) + [58] + Serialize(nc, m.value) + rest) == Some((CanonMember(m), rest))
  {
    hide ParseValue, Serialize, Canon, Quote, Unescape;
    var follow := [58] + (Serialize(nc, m.value) + rest);
    assert Quote(m.key) + [58] + Serialize(nc, m.value) + rest == Quote(m.key) + follow;
    QuotedRoundTrip(m.key, follow);
    assert follow[1..] == Serialize(nc, m.value) + rest;
    assert ParsesTo(nc, m.value, rest);
  }

  lemma JoinedMembers<N>(nc: Numbers<N>, members: seq<Member<N>>)
    requires members != []
    ensures var pair := Quote(members[0].key) + [58] + Serialize(nc, members[0].value);
            Join(Pairs(Entries(nc, members))) ==
            if |members| == 1 then pair else pair + [44] + Join(Pairs(Entries(nc, members[1..])))
  {
    hide Quote, Serialize;
  }

  lemma {:induction false} MembersRoundTrip<N(!new)>(nc: Numbers<N>, members: seq<Member<N>>, rest: Text)
    requires members != [] && forall m | m in members :: RoundTrips(nc, m.value)
    ensures ParseMembers(nc, Join(Pairs(Entries(nc, members))) + [125] + rest) == Some((CanonMembers(members), rest))
  {
    hide ParseMember, Serialize, Canon, Quote, RoundTrips, Join, Pairs, Entries;
    JoinedMembers(nc, members);
    var first, more := members[0], members[1..];
    var follow := if more == [] then [125] + rest else [44] + (Join(Pairs(Entries(nc, more))) + [125] + rest);
    var all := Join(Pairs(Entries(nc, members))) + [125] + rest;
    assert Stops(follow);
    assert all == Quote(first.key) + [58] + Serialize(nc, first.value) + follow;
    MemberRoundTrip(nc, first, follow);
    if more == [] {
      assert follow[1..] == rest;
      assert CanonMembers(members) == [CanonMember(first)];
    } else {
      MembersRoundTrip(nc, more, rest);
      assert follow[1..] == Join(Pairs(Entries(nc, more))) + [125] + rest;
    }
  }

  lemma ArrayRoundTrip<N(!new)>(nc: Numbers<N>, items: seq<Json<N>>, rest: Text)
    requires Lawful(nc) && forall v | v in items :: RoundTrips(nc, v)
    ensures ParsesTo(nc, JArray(items), rest)
  {
    var all := Serialize(nc, JArray(items)) + rest;
    if items == [] {
      assert all == [91, 93] + rest && all[2..] == rest;
    } else {
      ItemsRoundTrip(nc, items, rest);
      assert all[1..] == Join(Texts(nc, items)) + [93] + rest;
      FirstUnit(nc, items[0]);
      assert all[1] == Serialize(nc, items[0])[0];
    }
  }

  lemma ObjectRoundTrip<N(!new)>(nc: Numbers<N>, members: seq<Member<N>>, rest: Text)
    requires Lawful(nc) && forall m | m in members :: RoundTrips(nc, m.value)
    ensures ParsesTo(nc, JObject(members), rest)
  {
    hide Lawful, RoundTrips, Sort, ParseMembers, Quote;
    var sorted := Sort(members, MemberLe);
    SortedMembers(nc, members);
    SortPermutes(members, MemberLe);
    var body := Join(Pairs(Entries(nc, sorted)));
    var all := [123] + body + [125] + rest;
    assert Serialize(nc, JObject(members)) + rest == all;
    if members == [] {
      assert sorted == [];
      assert all == [123, 125] + rest && all[2..] == rest;
    } else {
      MembersRoundTrip(nc, sorted, rest);
      assert all[1..] == body + [125] + rest;
      BodyQuoted(nc, sorted);
    }
  }

  lemma BodyQuoted<N>(nc: Numbers<N>, members: seq<Member<N>>)
    requires members != []
    ensures Join(Pairs(Entries(nc, members))) != [] && Join(Pairs(Entries(nc, members)))[0] == 34
  {
    hide Serialize, Escape;
  }

  /** Decoding canonical text gives back the value, its members in key order, whatever may follow the text. */
  lemma {:induction false} RoundTrip<N(!new)>(nc: Numbers<N>, v: Json<N>)
    requires Lawful(nc)
    ensures RoundTrips(nc, v)
    decreases v
  {
    hide ParsesTo;
    match v
    case JArray(items) =>
      forall item | item in items ensures RoundTrips(nc, item) { RoundTrip(nc, item); }
      forall rest | Stops(rest) ensures ParsesTo(nc, v, rest) { ArrayRoundTrip(nc, items, rest); }
    case JObject(members) =>
      forall m | m in members ensures RoundTrips(nc, m.value) { RoundTrip(nc, m.value); }
      forall rest | Stops(rest) ensures ParsesTo(nc, v, rest) { ObjectRoundTrip(nc, members, rest); }
    case JNumber(n) =>
      forall rest | Stops(rest) ensures ParsesTo(nc, v, rest) { NumberRoundTrip(nc, n, rest); }
    case JString(s) =>
      forall rest | Stops(rest) ensures ParsesTo(nc, v, rest) { TextRoundTrip(nc, s, rest); }
    case _ =>
      forall rest | Stops(rest) ensures ParsesTo(nc, v, rest) { WordRoundTrip(nc, v, rest); }
  }

  lemma TextRoundTrip<N>(nc: Numbers<N>, s: Text, rest: Text)
    ensures ParsesTo(nc, JString(s), rest)
  {
    QuotedRoundTrip(s, rest);
  }

  lemma DecodesCanonically<N(!new)>(nc: Numbers<N>, v: Json<N>)
    requires Lawful(nc)
    ensures Decode(nc, Serialize(nc, v)) == Some(Canon(v))
  {
    RoundTrip(nc, v);
    assert ParsesTo(nc, v, []);
    assert Serialize(nc, v) + [] == Serialize(nc, v);
  }

  // ---- Meaning ---------------------------------------------------------------------

  lemma {:induction false} FieldsOf<N>(members: seq<Member<N>>)
    requires DistinctKeys(members)
    ensures forall k :: k in Fields(members) ==> exists m | m in members :: m.key == k
    ensures forall m | m in members :: m.key in Fields(members) && Fields(members)[m.key] == Meaning(m.value)
  {
    hide Meaning;
    if members != [] {
      FieldsOf(members[1..]);
      assert forall m | m in members :: m == members[0] || m in members[1..];
      assert forall m | m in members[1..] :: m in members && m.key != members[0].key;
    }
  }

  /** The order of an object's members does not matter to its meaning. */
  lemma PermutedFields<N>(a: seq<Member<N>>, b: seq<Member<N>>)
    requires DistinctKeys(a) && DistinctKeys(b) && forall m :: m in a <==> m in b
    ensures Fields(a) == Fields(b)
  {
    FieldsOf(a);
    FieldsOf(b);
  }

  lemma {:induction false} CanonMembersAt<N>(members: seq<Member<N>>)
    ensures forall i | 0 <= i < |members| :: CanonMembers(members)[i] == CanonMember(members[i])
  {
    if members != [] {
      CanonMembersAt(members[1..]);
    }
  }

  lemma {:induction false} ItemsAt<N>(nc: Numbers<N>, items: seq<Json<N>>)
    ensures forall i | 0 <= i < |items| ::
              && CanonItems(items)[i] == Canon(items[i]) && Meanings(items)[i] == Meaning(items[i])
              && Texts(nc, items)[i] == Serialize(nc, items[i])
  {
    if items != [] {
      ItemsAt(nc, items[1..]);
    }
  }

  lemma KeyOrder<N(!new)>()
    ensures TotalPreorder<Member<N>>(MemberLe) && TotalPreorder<Entry>(EntryLe)
  {
    forall a: Text, b: Text ensures KeyLe(a, b) || KeyLe(b, a) { LexTotal(UnitCode, a, b); }
    forall a: Text, b: Text, c: Text | KeyLe(a, b) && KeyLe(b, c) ensures KeyLe(a, c) { LexTransitive(UnitCode, a, b, c); }
  }

  lemma SortedDistinct<N(!new)>(members: seq<Member<N>>)
    requires DistinctKeys(members)
    ensures DistinctKeys(Sort(members, MemberLe))
    ensures forall m :: m in Sort(members, MemberLe) <==> m in members
  {
    var sorted := Sort(members, MemberLe);
    SortPermutes(members, MemberLe);
    DistinctUnderPermutation(members, sorted);
    hide Sort;
    forall i, j | 0 <= i < j < |sorted|
      ensures sorted[i].key != sorted[j].key
    {
      OneMemberPerKey(members, sorted[i], sorted[j]);
    }
  }

  lemma OneMemberPerKey<N>(members: seq<Member<N>>, x: Member<N>, y: Member<N>)
    requires DistinctKeys(members) && x in members && y in members
    ensures x.key == y.key ==> x == y
  {
  }

  /** Putting members in key order changes no meaning. */
  lemma {:induction false} CanonKeepsMeaning<N(!new)>(nc: Numbers<N>, v: Json<N>)
    requires Plain(v)
    ensures Meaning(Canon(v)) == Meaning(v)
    decreases v
  {
    match v
    case JArray(items) =>
      forall i | 0 <= i < |items| ensures Meaning(Canon(items[i])) == Meaning(items[i]) { CanonKeepsMeaning(nc, items[i]); }
      ItemsAt(nc, items);
      ItemsAt(nc, CanonItems(items));
      assert Meanings(CanonItems(items)) == Meanings(items);
    case JObject(members) =>
      forall i | 0 <= i < |members| ensures Meaning(Canon(members[i].value)) == Meaning(members[i].value) {
        CanonKeepsMeaning(nc, members[i].value);
      }
      CanonFields(nc, members);
    case _ =>
  }

  lemma CanonFields<N(!new)>(nc: Numbers<N>, members: seq<Member<N>>)
    requires DistinctKeys(members)
    requires forall i | 0 <= i < |members| :: Meaning(Canon(members[i].value)) == Meaning(members[i].value)
    ensures Fields(Sort(CanonMembers(members), MemberLe)) == Fields(members)
  {
    var canon := CanonMembers(members);
    CanonMembersAt(members);
    assert DistinctKeys(canon);
    SortedDistinct(canon);
    PermutedFields(Sort(canon, MemberLe), canon);
    PointwiseFields(canon, members);
  }

  lemma {:induction false} PointwiseFields<N>(a: seq<Member<N>>, b: seq<Member<N>>)
    requires |a| == |b| && forall i | 0 <= i < |a| :: a[i].key == b[i].key && Meaning(a[i].value) == Meaning(b[i].value)
    ensures Fields(a) == Fields(b)
  {
    if a != [] {
      PointwiseFields(a[1..], b[1..]);
    }
  }

  // ---- Text and meaning determine each other ---------------------------------------

  lemma {:induction false} EntriesAt<N>(nc: Numbers<N>, members: seq<Member<N>>)
    ensures forall i | 0 <= i < |members| :: Entries(nc, members)[i] == EntryOf(nc, members[i])
  {
    if members != [] {
      EntriesAt(nc, members[1..]);
    }
  }

  lemma {:induction false} SameMeaningSameText<N(!new)>(nc: Numbers<N>, v: Json<N>, w: Json<N>)
    requires Plain(v) && Plain(w) && Meaning(v) == Meaning(w)
    ensures Serialize(nc, v) == Serialize(nc, w)
    decreases v
  {
    match v
    case JArray(items) =>
      ItemsAt(nc, items);
      ItemsAt(nc, w.items);
      forall i | 0 <= i < |items| ensures Serialize(nc, items[i]) == Serialize(nc, w.items[i]) {
        assert Meanings(items)[i] == Meanings(w.items)[i];
        SameMeaningSameText(nc, items[i], w.items[i]);
      }
      assert Texts(nc, items) == Texts(nc, w.items);
    case JObject(members) =>
      forall a, b | a in members && b in w.members && a.key == b.key && Meaning(a.value) == Meaning(b.value)
        ensures EntryOf(nc, a) == EntryOf(nc, b)
      {
        SameMeaningSameText(nc, a.value, b.value);
      }
      SameFieldsSameEntries(nc, members, w.members);
    case _ =>
  }

  lemma SameFieldsSameEntries<N(!new)>(nc: Numbers<N>, a: seq<Member<N>>, b: seq<Member<N>>)
    requires DistinctKeys(a) && DistinctKeys(b) && Fields(a) == Fields(b)
    requires forall x, y | x in a && y in b && x.key == y.key && Meaning(x.value) == Meaning(y.value) :: EntryOf(nc, x) == EntryOf(nc, y)
    ensures Sort(Entries(nc, a), EntryLe) == Sort(Entries(nc, b), EntryLe)
  {
    var s, t := Entries(nc, a), Entries(nc, b);
    EntriesAt(nc, a);
    EntriesAt(nc, b);
    SharedEntries(nc, a, b);
    SharedEntries(nc, b, a);
    DistinctPermutation(s, t);
    KeyOrder<N>();
    EntriesSeparated(nc, a);
    SortCanonical(s, t, EntryLe);
  }

  lemma SharedEntries<N>(nc: Numbers<N>, a: seq<Member<N>>, b: seq<Member<N>>)
    requires DistinctKeys(a) && DistinctKeys(b) && Fields(a) == Fields(b)
    requires forall x, y | x in a && y in b && x.key == y.key && Meaning(x.value) == Meaning(y.value) :: EntryOf(nc, x) == EntryOf(nc, y)
    ensures forall e | e in Entries(nc, a) :: e in Entries(nc, b)
    ensures Distinct(Entries(nc, a))
  {
    FieldsOf(a);
    FieldsOf(b);
    EntriesAt(nc, a);
    EntriesAt(nc, b);
    forall e | e in Entries(nc, a)
      ensures e in Entries(nc, b)
    {
      var i :| 0 <= i < |a| && Entries(nc, a)[i] == e;
      assert a[i].key in Fields(b);
      var y :| y in b && y.key == a[i].key;
      var j :| 0 <= j < |b| && b[j] == y;
      assert Entries(nc, b)[j] == e;
    }
  }

  lemma EntriesSeparated<N>(nc: Numbers<N>, members: seq<Member<N>>)
    requires DistinctKeys(members)
    ensures Separates(EntryLe, Entries(nc, members))
  {
    EntriesAt(nc, members);
    var s := Entries(nc, members);
    forall x, y | x in s && y in s && EntryLe(x, y) && EntryLe(y, x)
      ensures x == y
    {
      LexAntisymmetric(UnitCode, x.key, y.key);
    }
  }

  /**
   Two plain values have the same canonical text exactly when they mean the same, that is, when they are
   equal up to the order of object keys.
   */
  lemma TextIffMeaning<N(!new)>(nc: Numbers<N>, v: Json<N>, w: Json<N>)
    requires Lawful(nc) && Plain(v) && Plain(w)
    ensures Serialize(nc, v) == Serialize(nc, w) <==> Meaning(v) == Meaning(w)
  {
    if Serialize(nc, v) == Serialize(nc, w) {
      DecodesCanonically(nc, v);
      DecodesCanonically(nc, w);
      CanonKeepsMeaning(nc, v);
      CanonKeepsMeaning(nc, w);
    }
    if Meaning(v) == Meaning(w) {
      SameMeaningSameText(nc, v, w);
    }
  }

  /** A decoder recovers the meaning of every plain value from its canonical text. */
  lemma DecodingRecoversMeaning<N(!new)>(nc: Numbers<N>, v: Json<N>)
    requires Lawful(nc) && Plain(v)
    ensures Decode(nc, Serialize(nc, v)).Some?
    ensures Meaning(Decode(nc, Serialize(nc, v)).value) == Meaning(v)
  {
    DecodesCanonically(nc, v);
    CanonKeepsMeaning(nc, v);
  }

  // ---- Canonical text is one line --------------------------------------------------

  ghost predicate OneLine(t: Text) { forall u | u in t :: u >= 0x20 }

  lemma {:induction false} EscapeOneLine(s: Text)
    ensures OneLine(Escape(s))
  {
    if s == [] {
    } else if IsHigh(s[0]) && |s| > 1 && IsLow(s[1]) {
      EscapeOneLine(s[2..]);
    } else {
      EscapeOneLine(s[1..]);
    }
  }

  lemma {:induction false} JoinOneLine(texts: seq<Text>)
    requires forall t | t in texts :: OneLine(t)
    ensures OneLine(Join(texts))
  {
    if |texts| == 1 {
      assert texts[0] in texts;
    } else if |texts| > 1 {
      assert texts[0] in texts;
      JoinOneLine(texts[1..]);
    }
  }

  /** Canonical text holds no control unit, so in particular no line feed. */
  lemma {:induction false} SerializesOnOneLine<N(!new)>(nc: Numbers<N>, v: Json<N>)
    requires Lawful(nc)
    ensures OneLine(Serialize(nc, v))
    decreases v
  {
    match v
    case JNumber(n) => assert RendersWell(nc, n);
    case JString(s) => EscapeOneLine(s);
    case JArray(items) =>
      forall item | item in items ensures OneLine(Serialize(nc, item)) { SerializesOnOneLine(nc, item); }
      ArrayOneLine(nc, items);
    case JObject(members) =>
      forall m | m in members ensures OneLine(Serialize(nc, m.value)) { SerializesOnOneLine(nc, m.value); }
      ObjectOneLine(nc, members);
    case _ =>
  }

  lemma ArrayOneLine<N>(nc: Numbers<N>, items: seq<Json<N>>)
    requires forall item | item in items :: OneLine(Serialize(nc, item))
    ensures OneLine(Serialize(nc, JArray(items)))
  {
    ItemsAt(nc, items);
    var texts := Texts(nc, items);
    forall t | t in texts ensures OneLine(t) {
      var i :| 0 <= i < |texts| && texts[i] == t;
      assert items[i] in items;
    }
    JoinOneLine(texts);
  }

  lemma ObjectOneLine<N>(nc: Numbers<N>, members: seq<Member<N>>)
    requires forall m | m in members :: OneLine(Serialize(nc, m.value))
    ensures OneLine(Serialize(nc, JObject(members)))
  {
    hide Sort, OneLine;
    SortedMembers(nc, members);
    SortPermutes(members, MemberLe);
    PairsOneLine(nc, Sort(members, MemberLe));
    BracesOneLine(Join(Pairs(Entries(nc, Sort(members, MemberLe)))));
  }

  lemma BracesOneLine(t: Text)
    requires OneLine(t)
    ensures OneLine([123] + t + [125])
  {
  }

  lemma {:induction false} PairsOneLine<N>(nc: Numbers<N>, members: seq<Member<N>>)
    requires forall m | m in members :: OneLine(Serialize(nc, m.value))
    ensures OneLine(Join(Pairs(Entries(nc, members))))
  {
    var texts := Pairs(Entries(nc, members));
    PairTexts(nc, members);
    JoinOneLine(texts);
  }

  lemma {:induction false} PairTexts<N>(nc: Numbers<N>, members: seq<Member<N>>)
    requires forall m | m in members :: OneLine(Serialize(nc, m.value))
    ensures forall t | t in Pairs(Entries(nc, members)) :: OneLine(t)
  {
    if members != [] {
      EscapeOneLine(members[0].key);
      PairTexts(nc, members[1..]);
    }
  }

  // ---- A number codec: decimal integers --------------------------------------------

  function Digits(n: nat): Text {
    if n < 10 then [48 + n] else Digits(n / 10) + [48 + n % 10]
  }

  function Decimal(n: int): Text { if n < 0 then [45] + Digits(-n) else Digits(n) }

  function DigitsValue(t: Text): Option<int> {
    if t == [] then Some(0)
    else
      var last, more := t[|t| - 1], DigitsValue(t[..|t| - 1]);
      if more.None? || !(48 <= last <= 57) then None else Some(10 * more.value + (last - 48))
  }

  function DecimalValue(t: Text): Option<int> {
    if t != [] && t[0] == 45 then
      match DigitsValue(t[1..]) case None => None case Some(n) => Some(-n)
    else
      match DigitsValue(t) case None => None case Some(n) => Some(n)
  }

  const Integers: Numbers<int> := Numbers(Decimal, DecimalValue)

  lemma {:induction false} DigitsRoundTrip(n: nat)
    ensures Digits(n) != [] && (forall u | u in Digits(n) :: 48 <= u <= 57) && DigitsValue(Digits(n)) == Some(n)
  {
    if n < 10 {
      assert DigitsValue([]) == Some(0);
      assert Digits(n)[..0] == [];
    } else {
      DigitsRoundTrip(n / 10);
      assert Digits(n)[..|Digits(n)| - 1] == Digits(n / 10);
    }
  }

  /** Decimal integers satisfy what the theorems ask of number rendering. */
  lemma IntegersLawful()
    ensures Lawful(Integers)
  {
    forall n: int ensures RendersWell(Integers, n) {
      DigitsRoundTrip(if n < 0 then -n else n);
      if n < 0 {
        assert Decimal(n)[1..] == Digits(-n);
      } else {
        assert Decimal(n)[0] in Digits(n);
      }
    }
  }
}
