/**
 The audit file written out: the text of a record's line and the text its hash is taken of, character by character, and
 what an unbroken chain is, record by record.
 */
module AuditTrailExact {
  import opened Prelude
  import opened Sorting
  import opened CanonicalJson
  import opened CanonicalJsonProofs
  import opened CanonicalJsonExact
  import opened AuditTrail

  /** The characters of a string as code units. */
  function Chars(s: string): (t: seq<int>) { seq(|s|, i requires 0 <= i < |s| => s[i] as int) }

  ghost predicate Name(s: string) { s != [] && forall i | 0 <= i < |s| :: s[i] == '_' || 'a' <= s[i] <= 'z' }

  lemma {:induction false} UnitsAre(s: string)
    requires Name(s)
    ensures Units(s) == Chars(s)
  {
    if |s| > 1 {
      UnitsAre(s[1..]);
      assert Chars(s) == [s[0] as int] + Chars(s[1..]);
    } else {
      assert s[1..] == [] && Units([]) == [];
    }
  }

  /** Small letters and underscores need no escapes. */
  lemma {:induction false} PlainName(s: Text)
    requires forall i | 0 <= i < |s| :: s[i] == 95 || 97 <= s[i] <= 122
    ensures Escape(s) == s
  {
    EscapeSteps(s);
    if s != [] {
      PlainName(s[1..]);
      hide Escape;
      assert EscapeUnit(s[0]) == [s[0]];
    }
  }

  /** A member's text: its name between quotes, a colon, and its value. */
  function Piece(m: Member<int>): Text { Quote(m.key) + [58] + Canonical(m.value) }

  function Body(members: seq<Member<int>>): Text { Join(Pairs(Entries(Integers, members))) }

  /** A name between quotes, a colon, and a text. */
  function Written(name: string, text: seq<int>): seq<int> { ['\"' as int] + Chars(name) + ['\"' as int, ':' as int] + text }

  lemma PieceIs(name: string, v: Json4)
    requires Name(name)
    ensures Piece(Member(Units(name), v)) == Written(name, Canonical(v))
  {
    UnitsAre(name);
    PlainName(Units(name));
    hide Canonical, Units, Escape;
  }

  lemma BodyNext(m: Member<int>, rest: seq<Member<int>>)
    ensures Body([m] + rest) == if rest == [] then Piece(m) else Piece(m) + [44] + Body(rest)
  {
    assert ([m] + rest)[1..] == rest;
    assert Entries(Integers, [m] + rest) == [Entry(m.key, Canonical(m.value))] + Entries(Integers, rest);
    var pairs := Pairs(Entries(Integers, [m] + rest));
    assert pairs == [Piece(m)] + Pairs(Entries(Integers, rest)) by { hide Piece, Quote; PairsNext(m, rest); }
    assert pairs[1..] == Pairs(Entries(Integers, rest));
    PairsAt(Entries(Integers, rest));
    hide Entries, Pairs, Piece;
  }

  lemma PairsNext(m: Member<int>, rest: seq<Member<int>>)
    ensures Pairs([Entry(m.key, Canonical(m.value))] + Entries(Integers, rest)) == [Piece(m)] + Pairs(Entries(Integers, rest))
  {
    hide Canonical, Entries, Quote;
    var e, more := Entry(m.key, Canonical(m.value)), Entries(Integers, rest);
    assert ([e] + more)[1..] == more;
  }

  /** The first key comes strictly before the second. */
  ghost predicate Under(a: Text, b: Text) { KeyLe(a, b) && a != b }

  ghost predicate Ascends(order: seq<Member<int>>) {
    |order| <= 1 || (Under(order[0].key, order[1].key) && Ascends(order[1..]))
  }

  lemma AscendsNext(m: Member<int>, n: Member<int>, rest: seq<Member<int>>)
    requires Under(m.key, n.key) && Ascends([n] + rest)
    ensures Ascends([m] + ([n] + rest))
  {
    assert ([m] + ([n] + rest))[1..] == [n] + rest;
  }

  lemma {:induction false} AscendsAll(order: seq<Member<int>>)
    requires Ascends(order)
    ensures forall i, j | 0 <= i < j < |order| :: Under(order[i].key, order[j].key)
  {
    if |order| > 1 {
      AscendsAll(order[1..]);
      forall j | 0 < j < |order| ensures Under(order[0].key, order[j].key) {
        if j > 1 {
          assert Under(order[1..][0].key, order[1..][j - 1].key);
          LexTransitive(UnitCode, order[0].key, order[1].key, order[j].key);
          if order[0].key == order[j].key { LexAntisymmetric(UnitCode, order[0].key, order[1].key); }
        }
      }
      forall i, j | 0 < i < j < |order| ensures Under(order[i].key, order[j].key) {
        assert Under(order[1..][i - 1].key, order[1..][j - 1].key);
      }
    }
  }

  /** Members that are already in order are written in this order, whatever order they are given in. */
  lemma SortsTo(members: seq<Member<int>>, order: seq<Member<int>>)
    requires multiset(members) == multiset(order) && Ascends(order)
    ensures Canonical(JObject(members)) == [123] + Body(order) + [125]
  {
    AscendsAll(order);
    MembersSeparated(order);
    SortedAs(members, order);
    hide *;
    SortedMembers(Integers, members);
    ObjectText(members);
    assert Body(order) == Join(Pairs(Entries(Integers, order))) by { BodyIs(order); }
  }

  lemma BodyIs(members: seq<Member<int>>)
    ensures Body(members) == Join(Pairs(Entries(Integers, members)))
  {
  }

  lemma ObjectText(members: seq<Member<int>>)
    ensures Canonical(JObject(members)) == [123] + Join(Pairs(Sort(Entries(Integers, members), EntryLe))) + [125]
  {
    hide Join, Pairs, Sort, Entries;
  }

  lemma SortedAs(members: seq<Member<int>>, order: seq<Member<int>>)
    requires multiset(members) == multiset(order) && Separates<Member<int>>(MemberLe, order)
    requires forall i, j | 0 <= i < j < |order| :: KeyLe(order[i].key, order[j].key)
    ensures Sort(members, MemberLe) == order
  {
    hide Sort, KeyLe;
    KeyOrder<int>();
    SortCanonical(order, members, MemberLe);
    SortFixed(order, MemberLe);
  }

  lemma MembersSeparated(order: seq<Member<int>>)
    requires DistinctKeys(order)
    ensures Separates<Member<int>>(MemberLe, order)
  {
    forall x, y | x in order && y in order && MemberLe(x, y) && MemberLe(y, x) ensures x == y {
      LexAntisymmetric(UnitCode, x.key, y.key);
    }
  }

  // ---- The two texts -----------------------------------------------------------------

  lemma KeyFirst(a: string, b: string, k: nat)
    requires Name(a) && Name(b) && k < |a| && k < |b| && (forall i | 0 <= i < k :: a[i] == b[i]) && a[k] < b[k]
    ensures Under(Units(a), Units(b))
  {
    UnitsAre(a);
    UnitsAre(b);
    hide Units, KeyLe;
    assert DifferAt(Units(a), Units(b), k);
    KeyLeIff(Units(a), Units(b));
    assert Units(a)[k] != Units(b)[k];
  }

  lemma NamesStart(entry: string, prev: string, hash: string, schema: string, sequence: string)
    requires entry == "entry" && prev == "prev_hash" && hash == "record_hash" && schema == "schema_version" && sequence == "sequence"
    ensures Name(entry) && Name(prev) && Name(hash) && Name(schema) && Name(sequence)
    ensures |entry| > 0 && |prev| > 0 && |hash| > 0 && |schema| > 1 && |sequence| > 1
    ensures entry[0] < prev[0] < hash[0] < schema[0] == sequence[0] && schema[1] < sequence[1]
  {
  }

  /** The names in the order they are written in. */
  lemma NamesInOrder(entry: string, prev: string, hash: string, schema: string, sequence: string)
    requires entry == "entry" && prev == "prev_hash" && hash == "record_hash" && schema == "schema_version" && sequence == "sequence"
    ensures Name(entry) && Name(prev) && Name(hash) && Name(schema) && Name(sequence)
    ensures Under(Units(entry), Units(prev)) && Under(Units(prev), Units(hash))
    ensures Under(Units(hash), Units(schema)) && Under(Units(prev), Units(schema)) && Under(Units(schema), Units(sequence))
  {
    hide *;
    NamesStart(entry, prev, hash, schema, sequence);
    Named(entry, prev, hash, schema, sequence);
  }

  lemma Named(entry: string, prev: string, hash: string, schema: string, sequence: string)
    requires Name(entry) && Name(prev) && Name(hash) && Name(schema) && Name(sequence)
    requires |entry| > 0 && |prev| > 0 && |hash| > 0 && |schema| > 1 && |sequence| > 1
    requires entry[0] < prev[0] < hash[0] < schema[0] == sequence[0] && schema[1] < sequence[1]
    ensures Under(Units(entry), Units(prev)) && Under(Units(prev), Units(hash))
    ensures Under(Units(hash), Units(schema)) && Under(Units(prev), Units(schema)) && Under(Units(schema), Units(sequence))
  {
    hide *;
    KeyFirst(entry, prev, 0);
    KeyFirst(prev, hash, 0);
    KeyFirst(hash, schema, 0);
    KeyFirst(prev, schema, 0);
    KeyFirst(schema, sequence, 1);
  }

  /** Members in order of their names, whatever order they are given in. */
  lemma FourWritten(members: seq<Member<int>>, a: Member<int>, b: Member<int>, c: Member<int>, d: Member<int>)
    requires Under(a.key, b.key) && Under(b.key, c.key) && Under(c.key, d.key)
    requires multiset(members) == multiset([a] + ([b] + ([c] + [d])))
    ensures Canonical(JObject(members)) == [123] + (Piece(a) + [44] + (Piece(b) + [44] + (Piece(c) + [44] + Piece(d)))) + [125]
  {
    hide *;
    OneAscends(d);
    AscendsNext(c, d, []);
    assert [d] + [] == [d];
    AscendsNext(b, c, [d]);
    AscendsNext(a, b, [c] + [d]);
    SortsTo(members, [a] + ([b] + ([c] + [d])));
    BodyNext(a, [b] + ([c] + [d]));
    BodyNext(b, [c] + [d]);
    BodyNext(c, [d]);
    BodyNext(d, []);
  }

  lemma FiveWritten(members: seq<Member<int>>, a: Member<int>, b: Member<int>, c: Member<int>, d: Member<int>, e: Member<int>)
    requires Under(a.key, b.key) && Under(b.key, c.key) && Under(c.key, d.key) && Under(d.key, e.key)
    requires multiset(members) == multiset([a] + ([b] + ([c] + ([d] + [e]))))
    ensures Canonical(JObject(members)) ==
              [123] + (Piece(a) + [44] + (Piece(b) + [44] + (Piece(c) + [44] + (Piece(d) + [44] + Piece(e))))) + [125]
  {
    hide *;
    OneAscends(e);
    AscendsNext(d, e, []);
    assert [e] + [] == [e];
    AscendsNext(c, d, [e]);
    AscendsNext(b, c, [d] + [e]);
    AscendsNext(a, b, [c] + ([d] + [e]));
    SortsTo(members, [a] + ([b] + ([c] + ([d] + [e]))));
    BodyNext(a, [b] + ([c] + ([d] + [e])));
    BodyNext(b, [c] + ([d] + [e]));
    BodyNext(c, [d] + [e]);
    BodyNext(d, [e]);
    BodyNext(e, []);
  }

  lemma OneAscends(m: Member<int>)
    ensures Ascends([m])
  {
  }

  /** The text of the previous hash: the word null, or the hash between quotes. */
  function PrevText(prev: Option<Text>): seq<int> {
    if prev == None then ['n' as int, 'u' as int, 'l' as int, 'l' as int] else ['\"' as int] + Escape(prev.value) + ['\"' as int]
  }

  function Comma(text: seq<int>, more: seq<int>): seq<int> { text + [',' as int] + more }

  function Braces(text: seq<int>): seq<int> { ['{' as int] + text + ['}' as int] }

  lemma ValuesAre(r: Record)
    ensures Canonical(JNumber(4)) == ['4' as int] && Canonical(JNumber(r.sequence)) == Decimal(r.sequence)
    ensures Canonical(if r.prev.None? then JNull else JString(r.prev.value)) == PrevText(r.prev)
    ensures Canonical(JString(r.hash)) == ['\"' as int] + Escape(r.hash) + ['\"' as int]
  {
    hide Escape;
  }

  /** The members of a draft, given their names. */
  lemma DraftAt(r: Record)
    ensures |DraftMembers(r)| == 4
    ensures DraftMembers(r)[0] == Member(Units("schema_version"), JNumber(4))
    ensures DraftMembers(r)[1] == Member(Units("sequence"), JNumber(r.sequence))
    ensures DraftMembers(r)[2] == Member(Units("prev_hash"), if r.prev.None? then JNull else JString(r.prev.value))
    ensures DraftMembers(r)[3] == Member(Units("entry"), r.entry)
    ensures RecordMembers(r) == DraftMembers(r) + [Member(Units("record_hash"), JString(r.hash))]
  {
    hide Units;
  }

  lemma SameUnits(s: string, t: string)
    requires s == t
    ensures Units(s) == Units(t)
  {
    hide *;
  }

  lemma DraftOf(r: Record, entry: string, prev: string, hash: string, schema: string, sequence: string) returns (d: seq<Member<int>>)
    requires entry == "entry" && prev == "prev_hash" && hash == "record_hash" && schema == "schema_version" && sequence == "sequence"
    ensures |d| == 5 && d[0] == Member(Units(entry), r.entry)
    ensures d[1] == Member(Units(prev), if r.prev.None? then JNull else JString(r.prev.value))
    ensures d[2] == Member(Units(hash), JString(r.hash)) && d[3] == Member(Units(schema), JNumber(4))
    ensures d[4] == Member(Units(sequence), JNumber(r.sequence))
    ensures DraftMembers(r) == [d[3]] + ([d[4]] + ([d[1]] + [d[0]]))
    ensures RecordMembers(r) == [d[3]] + ([d[4]] + ([d[1]] + ([d[0]] + [d[2]])))
  {
    hide *;
    DraftAt(r);
    SameUnits(entry, "entry");
    SameUnits(prev, "prev_hash");
    SameUnits(hash, "record_hash");
    SameUnits(schema, "schema_version");
    SameUnits(sequence, "sequence");
    var four, five := DraftMembers(r), RecordMembers(r);
    d := [four[3], four[2], five[4], four[0], four[1]];
  }

  /** The text a record's hash is taken of. */
  lemma DraftNamed(r: Record, entry: string, prev: string, hash: string, schema: string, sequence: string)
    requires entry == "entry" && prev == "prev_hash" && hash == "record_hash" && schema == "schema_version" && sequence == "sequence"
    ensures Canonical(JObject(DraftMembers(r))) ==
              Braces(Comma(Written(entry, Canonical(r.entry)),
                     Comma(Written(prev, PrevText(r.prev)),
                     Comma(Written(schema, ['4' as int]),
                           Written(sequence, Decimal(r.sequence))))))
  {
    hide *;
    var d := DraftOf(r, entry, prev, hash, schema, sequence);
    NamesInOrder(entry, prev, hash, schema, sequence);
    FourOf([d[0]], [d[1]], [d[3]], [d[4]]);
    FourWritten(DraftMembers(r), d[0], d[1], d[3], d[4]);
    ValuesAre(r);
    PieceIs(entry, d[0].value);
    PieceIs(prev, d[1].value);
    PieceIs(schema, d[3].value);
    PieceIs(sequence, d[4].value);
    FourCommas(Piece(d[0]), Piece(d[1]), Piece(d[3]), Piece(d[4]));
  }

  lemma FourOf<T>(a: seq<T>, b: seq<T>, c: seq<T>, d: seq<T>)
    ensures multiset(c + (d + (b + a))) == multiset(a + (b + (c + d)))
  {
    Joined(c, d + (b + a));
    Joined(d, b + a);
    Joined(b, a);
    Joined(a, b + (c + d));
    Joined(b, c + d);
    Joined(c, d);
    Rearranged(multiset(a), multiset(b), multiset(c), multiset(d), multiset{});
  }

  lemma Joined<T>(s: seq<T>, t: seq<T>)
    ensures multiset(s + t) == multiset(s) + multiset(t)
  {
  }

  lemma Rearranged<T>(a: multiset<T>, b: multiset<T>, c: multiset<T>, d: multiset<T>, e: multiset<T>)
    ensures c + (d + (b + a)) == a + (b + (c + d))
    ensures d + (e + (b + (a + c))) == a + (b + (c + (d + e)))
  {
  }

  lemma FourCommas(a: seq<int>, b: seq<int>, c: seq<int>, d: seq<int>)
    ensures [123] + (a + [44] + (b + [44] + (c + [44] + d))) + [125] == Braces(Comma(a, Comma(b, Comma(c, d))))
  {
  }

  lemma FiveOf<T>(a: seq<T>, b: seq<T>, c: seq<T>, d: seq<T>, e: seq<T>)
    ensures multiset(d + (e + (b + (a + c)))) == multiset(a + (b + (c + (d + e))))
  {
    Joined(d, e + (b + (a + c)));
    Joined(e, b + (a + c));
    Joined(b, a + c);
    Joined(a, c);
    Joined(a, b + (c + (d + e)));
    Joined(b, c + (d + e));
    Joined(c, d + e);
    Joined(d, e);
    Rearranged(multiset(a), multiset(b), multiset(c), multiset(d), multiset(e));
  }

  lemma FiveCommas(a: seq<int>, b: seq<int>, c: seq<int>, d: seq<int>, e: seq<int>)
    ensures [123] + (a + [44] + (b + [44] + (c + [44] + (d + [44] + e)))) + [125] == Braces(Comma(a, Comma(b, Comma(c, Comma(d, e)))))
  {
  }

  /** The line a record is written as. */
  lemma LineNamed(r: Record, entry: string, prev: string, hash: string, schema: string, sequence: string)
    requires entry == "entry" && prev == "prev_hash" && hash == "record_hash" && schema == "schema_version" && sequence == "sequence"
    ensures Canonical(JObject(RecordMembers(r))) ==
              Braces(Comma(Written(entry, Canonical(r.entry)),
                     Comma(Written(prev, PrevText(r.prev)),
                     Comma(Written(hash, ['\"' as int] + Escape(r.hash) + ['\"' as int]),
                     Comma(Written(schema, ['4' as int]),
                           Written(sequence, Decimal(r.sequence)))))))
  {
    hide *;
    var d := DraftOf(r, entry, prev, hash, schema, sequence);
    NamesInOrder(entry, prev, hash, schema, sequence);
    FiveOf([d[0]], [d[1]], [d[2]], [d[3]], [d[4]]);
    FiveWritten(RecordMembers(r), d[0], d[1], d[2], d[3], d[4]);
    ValuesAre(r);
    PieceIs(entry, d[0].value);
    PieceIs(prev, d[1].value);
    PieceIs(hash, d[2].value);
    PieceIs(schema, d[3].value);
    PieceIs(sequence, d[4].value);
    FiveCommas(Piece(d[0]), Piece(d[1]), Piece(d[2]), Piece(d[3]), Piece(d[4]));
  }

  /**
   A record is written on a line as an object of its entry, its previous hash, its own hash, the schema version 4 and its
   sequence number, in this order; its hash is taken of the same without itself.
   */
  lemma LineIs(c: Codec, r: Record)
    ensures Line(r) ==
              Braces(Comma(Written("entry", Canonical(r.entry)),
                     Comma(Written("prev_hash", PrevText(r.prev)),
                     Comma(Written("record_hash", ['\"' as int] + Escape(r.hash) + ['\"' as int]),
                     Comma(Written("schema_version", ['4' as int]),
                           Written("sequence", Decimal(r.sequence)))))))
    ensures exists draft: Text ::
              && draft == Braces(Comma(Written("entry", Canonical(r.entry)),
                                 Comma(Written("prev_hash", PrevText(r.prev)),
                                 Comma(Written("schema_version", ['4' as int]),
                                       Written("sequence", Decimal(r.sequence))))))
              && DraftHash(c, r) == c.sha(draft)
  {
    LinesAre(c, r);
    hide *;
    LineNamed(r, "entry", "prev_hash", "record_hash", "schema_version", "sequence");
    DraftNamed(r, "entry", "prev_hash", "record_hash", "schema_version", "sequence");
  }

  lemma LinesAre(c: Codec, r: Record)
    ensures Line(r) == Canonical(JObject(RecordMembers(r))) && DraftHash(c, r) == c.sha(Canonical(JObject(DraftMembers(r))))
  {
    hide RecordMembers, DraftMembers, Canonical;
  }

  // ---- Chains ------------------------------------------------------------------------

  /** Numbered from one, each naming the hash before it and bearing its own, loadable, one text per event id. */
  lemma ChainIff(c: Codec, records: seq<Record>)
    ensures GoodTrail(c, records) <==>
              && (forall i | 0 <= i < |records| :: records[i].sequence == i + 1 && records[i].hash == DraftHash(c, records[i]))
              && (records != [] ==> records[0].prev == None)
              && (forall i | 0 < i < |records| :: records[i].prev == Some(records[i - 1].hash))
              && (forall i | 0 <= i < |records| :: c.load(records[i].entry) == Some(records[i].entry))
              && (forall i, j | 0 <= i < j < |records| && c.eventId(records[i].entry) == c.eventId(records[j].entry) ::
                    Canonical(records[i].entry) == Canonical(records[j].entry))
  {
    hide DraftHash, Canonical;
    if GoodTrail(c, records) {
      forall i | 0 < i < |records| ensures records[i].prev == Some(records[i - 1].hash) {
        assert Continues(c, records[..i], records[i]);
      }
      forall i, j | 0 <= i < j < |records| && c.eventId(records[i].entry) == c.eventId(records[j].entry)
        ensures Canonical(records[i].entry) == Canonical(records[j].entry)
      {
        assert Agrees(c, records[..j], records[j].entry);
        assert records[..j][i] == records[i];
      }
    }
  }
}
