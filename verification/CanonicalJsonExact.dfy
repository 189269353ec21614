/**
 Canonical text written out unit by unit: the words, the escapes of section 7 of RFC 8259, decimal integers, the
 punctuation, and the order of the members (section 3.2.3 of RFC 8785).
 */
module CanonicalJsonExact {
  import opened Prelude
  import opened Sorting
  import opened CanonicalJson
  import opened CanonicalJsonProofs

  /** Up to position `k` the two are the same, and there the first ends or has the smaller unit. */
  ghost predicate DifferAt(a: Text, b: Text, k: nat) {
    && k <= |a| && k <= |b| && (forall i | 0 <= i < k :: a[i] == b[i])
    && (k == |a| || (k < |b| && a[k] < b[k]))
  }

  ghost predicate KeyBefore(a: Text, b: Text) { exists k: nat :: DifferAt(a, b, k) }

  /** Keys are ordered by their first different unit, a prefix before what it begins. */
  lemma {:induction false} KeyLeIff(a: Text, b: Text)
    ensures KeyLe(a, b) <==> KeyBefore(a, b)
    decreases |a|
  {
    if a == [] {
      assert DifferAt(a, b, 0);
    } else if b == [] || a[0] > b[0] {
      forall k: nat ensures !DifferAt(a, b, k) { }
    } else if a[0] < b[0] {
      assert DifferAt(a, b, 0);
    } else {
      KeyLeIff(a[1..], b[1..]);
      if KeyBefore(a[1..], b[1..]) {
        var k: nat :| DifferAt(a[1..], b[1..], k);
        Later(a, b, k);
      }
      if k: nat :| DifferAt(a, b, k) {
        assert k > 0;
        forall i | 0 <= i < k - 1 ensures a[1..][i] == b[1..][i] { assert a[i + 1] == b[i + 1]; }
        assert DifferAt(a[1..], b[1..], k - 1);
      }
    }
  }

  lemma Later(a: Text, b: Text, k: nat)
    requires a != [] && b != [] && a[0] == b[0] && DifferAt(a[1..], b[1..], k)
    ensures DifferAt(a, b, k + 1)
  {
    forall i | 0 <= i < k + 1 ensures a[i] == b[i] {
      if i > 0 { assert a[1..][i - 1] == b[1..][i - 1]; }
    }
  }

  // ---- Words and numbers -------------------------------------------------------------

  lemma WordsAre<N>(nc: Numbers<N>, n: N)
    ensures Serialize(nc, JNull) == ['n' as int, 'u' as int, 'l' as int, 'l' as int]
    ensures Serialize(nc, JBool(true)) == ['t' as int, 'r' as int, 'u' as int, 'e' as int]
    ensures Serialize(nc, JBool(false)) == ['f' as int, 'a' as int, 'l' as int, 's' as int, 'e' as int]
    ensures Serialize(nc, JNumber(n)) == nc.render(n)
  {
  }

  /** Decimal digits, most significant first, without leading zeros. */
  lemma DecimalIs(n: nat, d: nat)
    requires d < 10
    ensures Decimal(d) == ['0' as int + d]
    ensures n > 0 ==> Decimal(10 * n + d) == Decimal(n) + ['0' as int + d]
    ensures n > 0 ==> Decimal(0 - n) == ['-' as int] + Decimal(n)
  {
    assert Digits(d) == [48 + d];
    if n > 0 { assert (10 * n + d) / 10 == n && (10 * n + d) % 10 == d; }
  }

  // ---- Strings -----------------------------------------------------------------------

  /** The unit of a hexadecimal digit, in lower case. */
  ghost predicate Hex(u: Unit, d: int) { if 0 <= d < 10 then u == '0' as int + d else 10 <= d < 16 && u == 'a' as int + (d - 10) }

  /** How a single unit is written inside quotes. */
  lemma UnitEscapes(u: Unit)
    ensures var e := Escape([u]);
            if u == '\"' as int || u == '\\' as int then e == ['\\' as int, u]
            else if u == 8 then e == ['\\' as int, 'b' as int]
            else if u == 9 then e == ['\\' as int, 't' as int]
            else if u == 10 then e == ['\\' as int, 'n' as int]
            else if u == 12 then e == ['\\' as int, 'f' as int]
            else if u == 13 then e == ['\\' as int, 'r' as int]
            else if u < 32 || 0xD800 <= u < 0xE000 then
              && |e| == 6 && e[0] == '\\' as int && e[1] == 'u' as int
              && exists w, x, y, z :: && Hex(e[2], w) && Hex(e[3], x) && Hex(e[4], y) && Hex(e[5], z)
                                      && u == 4096 * w + 256 * x + 16 * y + z
            else e == [u]
  {
    assert Escape([u]) == EscapeUnit(u) by {
      assert [u][1..] == [];
      assert Escape([]) == [];
    }
    hide Escape, Hex;
    FourHex(u);
    hide UnicodeEscape;
  }

  lemma FourHex(u: Unit)
    ensures var e := UnicodeEscape(u);
            exists w, x, y, z :: && Hex(e[2], w) && Hex(e[3], x) && Hex(e[4], y) && Hex(e[5], z)
                                 && u == 4096 * w + 256 * x + 16 * y + z
  {
    var low, e := u % 4096, UnicodeEscape(u);
    assert Hex(e[2], u / 4096) && Hex(e[3], low / 256) && Hex(e[4], low % 256 / 16) && Hex(e[5], low % 256 % 16);
    assert u == 4096 * (u / 4096) + 256 * (low / 256) + 16 * (low % 256 / 16) + low % 256 % 16;
  }

  /** A surrogate pair is kept as it is. */
  lemma PairKept(high: Unit, low: Unit)
    requires 0xD800 <= high < 0xDC00 <= low < 0xE000
    ensures Escape([high, low]) == [high, low]
  {
    assert [high, low][2..] == [];
  }

  lemma EscapeSteps(s: Text)
    ensures s == [] ==> Escape(s) == []
    ensures s != [] ==>
              Escape(s) == if IsHigh(s[0]) && |s| > 1 && IsLow(s[1]) then [s[0], s[1]] + Escape(s[2..])
                           else EscapeUnit(s[0]) + Escape(s[1..])
  {
  }

  /** Strings are escaped piece by piece, where no surrogate pair is cut. */
  lemma {:induction false} EscapeJoins(s: Text, t: Text)
    requires !(s != [] && t != [] && 0xD800 <= s[|s| - 1] < 0xDC00 && 0xDC00 <= t[0] < 0xE000)
    ensures Escape(s + t) == Escape(s) + Escape(t)
    decreases |s|
  {
    EscapeSteps(s);
    EscapeSteps(s + t);
    hide EscapeUnit, Escape;
    if s == [] {
      assert s + t == t;
    } else if IsHigh(s[0]) && |s| > 1 && IsLow(s[1]) {
      EscapeJoins(s[2..], t);
      assert (s + t)[2..] == s[2..] + t;
    } else {
      EscapeJoins(s[1..], t);
      assert (s + t)[1..] == s[1..] + t;
    }
  }

  // ---- Arrays and objects ------------------------------------------------------------

  lemma {:induction false} JoinIs(a: seq<Text>, b: seq<Text>)
    ensures Join([]) == [] && (|a| == 1 ==> Join(a) == a[0])
    ensures a != [] && b != [] ==> Join(a + b) == Join(a) + [',' as int] + Join(b)
  {
    if |a| > 1 {
      JoinIs(a[1..], b);
      assert (a + b)[1..] == a[1..] + b;
    } else if a != [] {
      assert (a + b)[1..] == b;
    }
  }

  /** An array: its items' texts, in order, with commas between them. */
  lemma ArrayIs<N>(nc: Numbers<N>, items: seq<Json<N>>) returns (texts: seq<Text>)
    ensures |texts| == |items| && forall i | 0 <= i < |items| :: texts[i] == Serialize(nc, items[i])
    ensures Serialize(nc, JArray(items)) == ['[' as int] + Join(texts) + [']' as int]
  {
    texts := Texts(nc, items);
    ItemsAt(nc, items);
  }

  lemma {:induction false} PairsAt(entries: seq<Entry>)
    ensures |Pairs(entries)| == |entries|
    ensures forall i | 0 <= i < |entries| :: Pairs(entries)[i] == ['\"' as int] + Escape(entries[i].key) + ['\"' as int, ':' as int] + entries[i].text
  {
    if entries != [] {
      PairsAt(entries[1..]);
    }
  }

  lemma MembersSorted<N(!new)>(members: seq<Member<N>>) returns (order: seq<Member<N>>)
    ensures order == Sort(members, MemberLe) && multiset(order) == multiset(members)
    ensures forall i, j | 0 <= i < j < |order| :: KeyBefore(order[i].key, order[j].key)
  {
    order := Sort(members, MemberLe);
    SortPermutes(members, MemberLe);
    KeyOrder<N>();
    SortSorts(members, MemberLe);
    hide Sort, KeyBefore, KeyLe;
    forall i, j | 0 <= i < j < |order| ensures KeyBefore(order[i].key, order[j].key) {
      assert MemberLe(order[i], order[j]);
      KeyLeIff(order[i].key, order[j].key);
    }
  }

  /** An object: its members in the order of their keys, each key quoted and followed by a colon and its value. */
  lemma ObjectIs<N(!new)>(nc: Numbers<N>, members: seq<Member<N>>) returns (order: seq<Member<N>>, texts: seq<Text>)
    ensures multiset(order) == multiset(members)
    ensures forall i, j | 0 <= i < j < |order| :: KeyBefore(order[i].key, order[j].key)
    ensures |texts| == |order|
    ensures forall i | 0 <= i < |order| ::
              texts[i] == ['\"' as int] + Escape(order[i].key) + ['\"' as int, ':' as int] + Serialize(nc, order[i].value)
    ensures Serialize(nc, JObject(members)) == ['{' as int] + Join(texts) + ['}' as int]
  {
    order := MembersSorted(members);
    SortedMembers(nc, members);
    EntriesAt(nc, order);
    texts := Pairs(Entries(nc, order));
    PairsAt(Entries(nc, order));
    assert Serialize(nc, JObject(members)) == [123] + Join(Pairs(Sort(Entries(nc, members), EntryLe))) + [125];
    hide *;
  }
}
