/**
 The hash-chained audit trail (src/runtime/audit-trail.ts): its line format, the parser, and the
 writer with short writes and failed syncs. Text is modelled in code units.
 */
module AuditTrail {
  import opened Prelude
  import opened Sorting
  import opened CanonicalJson
  import opened CanonicalJsonProofs

  type Json4 = Json<int>

  /** SHA-256 over text, the entry loader (which fixes the field order), and the entry's event id. */
  datatype Codec = Codec(sha: Text -> Text, load: Json4 -> Option<Json4>, eventId: Json4 -> Text)

  /** The loader keeps the meaning, depends on nothing else, and returns its own results unchanged. */
  ghost predicate LawfulCodec(c: Codec) {
    && (forall v :: c.load(v).Some? ==> Plain(c.load(v).value) && Meaning(c.load(v).value) == Meaning(v))
    && (forall v :: c.load(v).Some? ==> c.load(c.load(v).value) == c.load(v))
    && (forall v, w :: Meaning(v) == Meaning(w) ==> c.load(v) == c.load(w))
  }

  datatype Record = Record(sequence: int, prev: Option<Text>, entry: Json4, hash: Text)

  // ---- The record as JSON ----------------------------------------------------------

  function Units(s: string): (t: Text)
    ensures |t| == |s|
  {
    if s == [] then [] else [if s[0] as int < 0x10000 then s[0] as int else 0xFFFD] + Units(s[1..])
  }

  function DraftMembers(r: Record): seq<Member<int>> {
    [Member(Units("schema_version"), JNumber(4)),
     Member(Units("sequence"), JNumber(r.sequence)),
     Member(Units("prev_hash"), if r.prev.None? then JNull else JString(r.prev.value)),
     Member(Units("entry"), r.entry)]
  }

  function RecordMembers(r: Record): seq<Member<int>> {
    DraftMembers(r) + [Member(Units("record_hash"), JString(r.hash))]
  }

  function Canonical(v: Json4): Text { Serialize(Integers, v) }

  /** The hash of the record without its own hash. */
  function DraftHash(c: Codec, r: Record): Text { c.sha(Canonical(JObject(DraftMembers(r)))) }

  function Line(r: Record): Text { Canonical(JObject(RecordMembers(r))) }

  function Field(members: seq<Member<int>>, key: Text): (r: Option<Json4>)
    ensures r.Some? ==> Member(key, r.value) in members
  {
    if members == [] then None
    else if members[0].key == key then Some(members[0].value)
    else Field(members[1..], key)
  }

  /** `loadAuditTrailRecordV4`: the exact five fields, a well-typed value in each, and an unbroken record hash. */
  function LoadRecord(c: Codec, v: Json4): Option<Record> {
    if !v.JObject? || |v.members| != 5 then None
    else
      match (Field(v.members, Units("schema_version")), Field(v.members, Units("sequence")), Field(v.members, Units("prev_hash")),
             Field(v.members, Units("entry")), Field(v.members, Units("record_hash")))
      case (Some(JNumber(4)), Some(JNumber(sequence)), Some(prev), Some(entry), Some(JString(hash))) =>
        var loaded := c.load(entry);
        if sequence < 1 || !(prev.JNull? || prev.JString?) || loaded.None? then None
        else
          var r := Record(sequence, if prev.JNull? then None else Some(prev.s), loaded.value, hash);
          if DraftHash(c, r) == hash then Some(r) else None
      case _ => None
  }

  // ---- Parsing ---------------------------------------------------------------------

  function LastHash(records: seq<Record>): Option<Text> {
    if records == [] then None else Some(records[|records| - 1].hash)
  }

  /** No earlier record has this entry's event id with other canonical bytes. */
  predicate Agrees(c: Codec, records: seq<Record>, entry: Json4) {
    forall i | 0 <= i < |records| ::
      c.eventId(records[i].entry) == c.eventId(entry) ==> Canonical(records[i].entry) == Canonical(entry)
  }

  /** `r` may follow `records`. */
  predicate Continues(c: Codec, records: seq<Record>, r: Record) {
    && r.sequence == |records| + 1 && r.prev == LastHash(records) && r.hash == DraftHash(c, r)
    && c.load(r.entry) == Some(r.entry) && Agrees(c, records, r.entry)
  }

  /** An unbroken chain of loadable entries without conflicting event ids. */
  ghost predicate GoodTrail(c: Codec, records: seq<Record>) {
    forall i | 0 <= i < |records| :: Continues(c, records[..i], records[i])
  }

  /** JSON values without repeated keys: what `JSON.parse` returns and canonical text must re-read as. */
  predicate Unrepeated(v: Json4)
    decreases v
  {
    match v
    case JArray(items) => forall i | 0 <= i < |items| :: Unrepeated(items[i])
    case JObject(members) =>
      && (forall i, j | 0 <= i < j < |members| :: members[i].key != members[j].key)
      && forall i | 0 <= i < |members| :: Unrepeated(members[i].value)
    case _ => true
  }

  /** One line of the file, read on its own: canonical JSON that loads as a record. */
  function ParseLine(c: Codec, line: Text): Option<Record> {
    match Decode(Integers, line)
    case None => None
    case Some(v) => if Unrepeated(v) && Canonical(v) == line then LoadRecord(c, v) else None
  }

  /** One iteration of `parseRecords`. */
  function ParseNext(c: Codec, records: seq<Record>, line: Text): Option<Record> {
    match ParseLine(c, line)
    case None => None
    case Some(r) => if r.sequence == |records| + 1 && r.prev == LastHash(records) && Agrees(c, records, r.entry) then Some(r) else None
  }

  function ParseLines(c: Codec, lines: seq<Text>, n: nat): Option<seq<Record>>
    requires n <= |lines|
  {
    if n == 0 then Some([])
    else
      match ParseLines(c, lines, n - 1)
      case None => None
      case Some(records) =>
        match ParseNext(c, records, lines[n - 1])
        case None => None
        case Some(r) => Some(records + [r])
  }

  /** `split('\n')`. */
  function Split(t: Text): (lines: seq<Text>)
    ensures lines != []
  {
    if t == [] then [[]]
    else
      var more := Split(t[1..]);
      if t[0] == 10 then [[]] + more else [[t[0]] + more[0]] + more[1..]
  }

  function Parse(c: Codec, file: Text): Option<seq<Record>> {
    if file == [] then Some([])
    else if file[|file| - 1] != 10 then None
    else
      var lines := Split(file[..|file| - 1]);
      ParseLines(c, lines, |lines|)
  }

  /** `parseRecords`. */
  method ParseRecords(c: Codec, file: Text) returns (r: Option<seq<Record>>)
    ensures r == Parse(c, file)
  {
    IndexedEmpty(c);
    hide ParseLine, Split, Canonical, Indexed, Agrees;
    if |file| == 0 {
      return Some([]);
    }
    if file[|file| - 1] != 10 {
      return None;
    }
    var lines := Split(file[..|file| - 1]);
    var records: seq<Record> := [];
    var eventBytes: map<Text, Text> := map[];
    for index := 0 to |lines|
      invariant ParseLines(c, lines, index) == Some(records)
      invariant Indexed(c, eventBytes, records)
    {
      var parsed := ParseLine(c, lines[index]);
      if parsed.None? {
        ParseLinesFails(c, lines, index + 1, |lines|);
        return None;
      }
      var record := parsed.value;
      var id, bytes := c.eventId(record.entry), Canonical(record.entry);
      IndexedAgrees(c, eventBytes, records, record.entry);
      if record.sequence != index + 1 || record.prev != LastHash(records) || (id in eventBytes && eventBytes[id] != bytes) {
        ParsedCount(c, lines, index);
        ParseLinesFails(c, lines, index + 1, |lines|);
        return None;
      }
      ParsedCount(c, lines, index);
      IndexedExtends(c, eventBytes, records, record);
      eventBytes := eventBytes[id := bytes];
      records := records + [record];
    }
    return Some(records);
  }

  lemma {:induction false} ParsedCount(c: Codec, lines: seq<Text>, n: nat)
    requires n <= |lines| && ParseLines(c, lines, n).Some?
    ensures |ParseLines(c, lines, n).value| == n
  {
    hide ParseNext;
    if n > 0 {
      ParsedCount(c, lines, n - 1);
    }
  }

  lemma {:induction false} ParseLinesFails(c: Codec, lines: seq<Text>, i: nat, n: nat)
    requires i <= n <= |lines| && ParseLines(c, lines, i).None?
    ensures ParseLines(c, lines, n).None?
    decreases n - i
  {
    hide ParseNext;
    if i < n {
      ParseLinesFails(c, lines, i, n - 1);
    }
  }

  /** The event-id index maps every recorded id to its entry's bytes. */
  ghost predicate Indexed(c: Codec, index: map<Text, Text>, records: seq<Record>) {
    && (forall i | 0 <= i < |records| ::
          c.eventId(records[i].entry) in index && index[c.eventId(records[i].entry)] == Canonical(records[i].entry))
    && (forall id | id in index :: exists i | 0 <= i < |records| :: c.eventId(records[i].entry) == id)
  }

  lemma IndexedEmpty(c: Codec)
    ensures Indexed(c, map[], [])
  {
  }

  lemma IndexedAgrees(c: Codec, index: map<Text, Text>, records: seq<Record>, entry: Json4)
    requires Indexed(c, index, records)
    ensures Agrees(c, records, entry) <==> !(c.eventId(entry) in index && index[c.eventId(entry)] != Canonical(entry))
  {
  }

  lemma IndexedExtends(c: Codec, index: map<Text, Text>, records: seq<Record>, r: Record)
    requires Indexed(c, index, records) && Agrees(c, records, r.entry)
    ensures Indexed(c, index[c.eventId(r.entry) := Canonical(r.entry)], records + [r])
  {
    var longer := records + [r];
    assert longer[|records|] == r;
    assert forall i | 0 <= i < |records| :: longer[i] == records[i];
  }

  // ---- The file --------------------------------------------------------------------

  function FileText(records: seq<Record>): Text {
    if records == [] then [] else FileText(records[..|records| - 1]) + Line(records[|records| - 1]) + [10]
  }

  // ---- One line --------------------------------------------------------------------

  lemma KeyLengths()
    ensures |Units("schema_version")| == 14 && |Units("sequence")| == 8 && |Units("prev_hash")| == 9
    ensures |Units("entry")| == 5 && |Units("record_hash")| == 11
  {
  }

  lemma {:induction false} UnrepeatedIsPlain(v: Json4)
    ensures Unrepeated(v) <==> Plain(v)
    decreases v
  {
    match v
    case JArray(items) =>
      forall i | 0 <= i < |items| ensures Unrepeated(items[i]) <==> Plain(items[i]) { UnrepeatedIsPlain(items[i]); }
    case JObject(members) =>
      forall i | 0 <= i < |members| ensures Unrepeated(members[i].value) <==> Plain(members[i].value) {
        UnrepeatedIsPlain(members[i].value);
      }
    case _ =>
  }

  /** Looking a key up finds the one member that carries it. */
  lemma {:induction false} FieldFinds(members: seq<Member<int>>, m: Member<int>)
    requires DistinctKeys(members) && m in members
    ensures Field(members, m.key) == Some(m.value)
  {
    if members[0] != m {
      assert m in members[1..];
      var i :| 0 <= i < |members| && members[i] == m;
      assert members[0].key != members[i].key;
      FieldFinds(members[1..], m);
    }
  }

  lemma RecordKeys(r: Record)
    ensures DistinctKeys(RecordMembers(r)) && DistinctKeys(DraftMembers(r)) && |RecordMembers(r)| == 5
    ensures RecordMembers(r)[0].key == Units("schema_version") && RecordMembers(r)[1].key == Units("sequence")
    ensures RecordMembers(r)[2].key == Units("prev_hash") && RecordMembers(r)[3].key == Units("entry")
    ensures RecordMembers(r)[4].key == Units("record_hash")
  {
    KeyLengths();
    hide Units;
  }

  lemma PlainRecord(r: Record)
    requires Plain(r.entry)
    ensures Plain(JObject(RecordMembers(r))) && Plain(JObject(DraftMembers(r)))
  {
    RecordKeys(r);
    hide Units;
  }

  lemma CanonKeepsKeys(members: seq<Member<int>>)
    requires DistinctKeys(members)
    ensures DistinctKeys(CanonMembers(members))
  {
    CanonMembersAt(members);
  }

  /** Decoding a record's line shows its five members, with canonical values. */
  lemma LineDecodes(r: Record)
    requires Plain(r.entry)
    ensures Decode(Integers, Line(r)).Some?
    ensures var v := Decode(Integers, Line(r)).value;
            && v.JObject? && |v.members| == 5 && DistinctKeys(v.members)
            && forall i | 0 <= i < 5 :: CanonMember(RecordMembers(r)[i]) in v.members
  {
    hide Units, Serialize, Canon;
    IntegersLawful();
    var members := RecordMembers(r);
    DecodesCanonically(Integers, JObject(members));
    RecordKeys(r);
    CanonMembersAt(members);
    CanonKeepsKeys(members);
    SortedDistinct(CanonMembers(members));
    SortPermutes(CanonMembers(members), MemberLe);
    CanonObject(members);
    forall i | 0 <= i < 5
      ensures CanonMember(members[i]) in Sort(CanonMembers(members), MemberLe)
    {
      assert CanonMembers(members)[i] == CanonMember(members[i]);
    }
  }

  lemma CanonObject(members: seq<Member<int>>)
    ensures Canon(JObject(members)) == JObject(Sort(CanonMembers(members), MemberLe))
  {
  }

  lemma CanonScalar(v: Json4)
    requires !v.JArray? && !v.JObject?
    ensures Canon(v) == v
  {
  }

  lemma LineFields(r: Record, members: seq<Member<int>>)
    requires DistinctKeys(members) && forall i | 0 <= i < 5 :: CanonMember(RecordMembers(r)[i]) in members
    ensures Field(members, Units("schema_version")) == Some(JNumber(4))
    ensures Field(members, Units("sequence")) == Some(JNumber(r.sequence))
    ensures Field(members, Units("prev_hash")) == Some(if r.prev.None? then JNull else JString(r.prev.value))
    ensures Field(members, Units("entry")) == Some(Canon(r.entry))
    ensures Field(members, Units("record_hash")) == Some(JString(r.hash))
  {
    hide Units, Canon, Field;
    forall i | 0 <= i < 5
      ensures Field(members, RecordMembers(r)[i].key) == Some(Canon(RecordMembers(r)[i].value))
    {
      FieldFinds(members, CanonMember(RecordMembers(r)[i]));
    }
    CanonScalar(JNumber(4));
    CanonScalar(JNumber(r.sequence));
    CanonScalar(if r.prev.None? then JNull else JString(r.prev.value));
    CanonScalar(JString(r.hash));
    assert RecordMembers(r)[4].value == JString(r.hash);
    assert RecordMembers(r)[0].value == JNumber(4) && RecordMembers(r)[3].value == r.entry;
    assert RecordMembers(r)[1].value == JNumber(r.sequence);
    assert RecordMembers(r)[2].value == if r.prev.None? then JNull else JString(r.prev.value);
  }

  /** A well-hashed record with a loadable entry is read back from its own line. */
  lemma LineParses(c: Codec, r: Record)
    requires LawfulCodec(c) && r.sequence >= 1 && r.hash == DraftHash(c, r) && c.load(r.entry) == Some(r.entry)
    ensures ParseLine(c, Line(r)) == Some(r)
  {
    hide Units, Canon, Field, Decode, DraftHash, Serialize;
    assert Plain(r.entry);
    LineDecodes(r);
    var v := Decode(Integers, Line(r)).value;
    LineFields(r, v.members);
    CanonKeepsMeaning(Integers, r.entry);
    assert c.load(Canon(r.entry)) == Some(r.entry);
    LineIsCanonical(r);
    UnrepeatedIsPlain(v);
  }

  lemma LineIsCanonical(r: Record)
    requires Plain(r.entry)
    ensures Decode(Integers, Line(r)).Some?
    ensures var v := Decode(Integers, Line(r)).value; Plain(v) && Canonical(v) == Line(r)
  {
    hide Units, Serialize, Decode, Plain, Meaning;
    var v := JObject(RecordMembers(r));
    IntegersLawful();
    DecodesCanonically(Integers, v);
    PlainRecord(r);
    PlainCanon(v);
    CanonKeepsMeaning(Integers, v);
    SameMeaningSameText(Integers, Canon(v), v);
  }

  lemma {:induction false} PlainCanon(v: Json4)
    requires Plain(v)
    ensures Plain(Canon(v))
    decreases v
  {
    match v
    case JArray(items) =>
      ItemsAt(Integers, items);
      forall i | 0 <= i < |items| ensures Plain(Canon(items[i])) { PlainCanon(items[i]); }
    case JObject(members) =>
      forall i | 0 <= i < |members| ensures Plain(Canon(members[i].value)) { PlainCanon(members[i].value); }
      PlainCanonMembers(members);
    case _ =>
  }

  lemma PlainCanonMembers(members: seq<Member<int>>)
    requires DistinctKeys(members) && forall i | 0 <= i < |members| :: Plain(Canon(members[i].value))
    ensures Plain(JObject(Sort(CanonMembers(members), MemberLe)))
  {
    var canon := CanonMembers(members);
    var sorted := Sort(canon, MemberLe);
    CanonMembersAt(members);
    CanonKeepsKeys(members);
    SortedDistinct(canon);
    forall i | 0 <= i < |sorted|
      ensures Plain(sorted[i].value)
    {
      assert sorted[i] in canon;
    }
  }

  /** A line that parses is the line of the record it parses to, and that record is well formed. */
  lemma ParsedLine(c: Codec, line: Text)
    requires LawfulCodec(c) && ParseLine(c, line).Some?
    ensures var r := ParseLine(c, line).value;
            Line(r) == line && r.sequence >= 1 && r.hash == DraftHash(c, r) && c.load(r.entry) == Some(r.entry)
  {
    hide Units, Canon, Field, Decode, DraftHash, Serialize, Plain, Meaning;
    var r := ParseLine(c, line).value;
    var v := Decode(Integers, line).value;
    UnrepeatedIsPlain(v);
    LoadedMembers(c, v, r);
    PlainRecord(r);
    SameMeaningSameText(Integers, JObject(RecordMembers(r)), v);
  }

  lemma LoadedMembers(c: Codec, v: Json4, r: Record)
    requires LawfulCodec(c) && Plain(v) && LoadRecord(c, v) == Some(r)
    ensures Plain(r.entry) && Meaning(JObject(RecordMembers(r))) == Meaning(v)
  {
    hide Units, Canon, DraftHash, Serialize, Fields, RecordMembers;
    RecordKeys(r);
    var own := RecordMembers(r);
    LoadedMember(c, v, r, 0);
    forall i | 0 <= i < 5
      ensures own[i].key in Fields(v.members) && Fields(v.members)[own[i].key] == Meaning(own[i].value)
    {
      LoadedMember(c, v, r, i);
    }
    SameFiveFields(own, v.members);
  }

  lemma SameFiveFields(own: seq<Member<int>>, other: seq<Member<int>>)
    requires |own| == 5 && |other| == 5 && DistinctKeys(own) && DistinctKeys(other)
    requires forall i | 0 <= i < 5 :: own[i].key in Fields(other) && Fields(other)[own[i].key] == Meaning(own[i].value)
    ensures Fields(own) == Fields(other)
  {
    hide Fields, Meaning;
    FieldsOf(own);
    FiveKeys(own, other);
  }

  lemma LoadedMember(c: Codec, v: Json4, r: Record, i: nat)
    requires LawfulCodec(c) && Plain(v) && LoadRecord(c, v) == Some(r) && i < 5
    ensures Plain(r.entry)
    ensures RecordMembers(r)[i].key in Fields(v.members)
    ensures Fields(v.members)[RecordMembers(r)[i].key] == Meaning(RecordMembers(r)[i].value)
  {
    hide Units, Canon, DraftHash, Serialize, Fields;
    RecordKeys(r);
    FieldsOf(v.members);
    var loaded := Field(v.members, RecordMembers(r)[i].key).value;
    assert Member(RecordMembers(r)[i].key, loaded) in v.members;
    assert i == 3 || loaded == RecordMembers(r)[i].value;
  }

  lemma FiveKeys(own: seq<Member<int>>, other: seq<Member<int>>)
    requires |own| == 5 && |other| == 5 && DistinctKeys(own) && DistinctKeys(other)
    requires forall m | m in own :: m.key in Fields(other)
    ensures Fields(own).Keys == Fields(other).Keys
  {
    FieldsCount(own);
    FieldsCount(other);
    FieldsOf(own);
    SubsetSameSize(Fields(own).Keys, Fields(other).Keys);
  }

  lemma SubsetSameSize<T>(a: set<T>, b: set<T>)
    requires a <= b && |a| == |b|
    ensures a == b
  {
    assert b == a + (b - a);
  }

  lemma {:induction false} FieldsCount(members: seq<Member<int>>)
    requires DistinctKeys(members)
    ensures |Fields(members).Keys| == |members|
  {
    if members != [] {
      FieldsCount(members[1..]);
      FieldsOf(members[1..]);
      assert members[0].key !in Fields(members[1..]);
      assert Fields(members).Keys == Fields(members[1..]).Keys + {members[0].key};
    }
  }
}
