/** The open audit trail (src/runtime/audit-trail.ts): appends through a device that may write short, fail or lose the sync. */
module AuditWriter {
  import opened Prelude
  import opened CanonicalJson
  import opened AuditTrail
  import opened AuditTrailProofs

  /** The file holds the records and part of one more record's line (all of it when only the sync failed). */
  ghost predicate Torn(c: Codec, file: Text, records: seq<Record>) {
    file == FileText(records) || exists r, n :: TornAt(c, file, records, r, n)
  }

  ghost predicate TornAt(c: Codec, file: Text, records: seq<Record>, r: Record, n: nat) {
    Continues(c, records, r) && n <= |Line(r)| + 1 && file == FileText(records) + (Line(r) + [10])[..n]
  }

  /** Reopening after any failed append yields the records, or those and the one whose write was completed, or a rejection. */
  lemma ReopenAfterFailure(c: Codec, file: Text, records: seq<Record>)
    requires LawfulCodec(c) && GoodTrail(c, records) && Torn(c, file, records)
    ensures Parse(c, file).Some? ==>
              var found := Parse(c, file).value;
              && file == FileText(found)
              && (found == records || (records < found && |found| == |records| + 1))
    ensures file == FileText(records) ==> Parse(c, file) == Some(records)
  {
    hide LawfulCodec, Parse, GoodTrail, FileText, Line, Continues;
    ParseIff(c, FileText(records), records);
    if file != FileText(records) {
      var r, n :| TornAt(c, file, records, r, n);
      var longer := records + [r];
      GoodExtend(c, records, r);
      FileAppends(records, r);
      assert file <= FileText(longer);
      PrefixParses(c, longer, file);
      if Parse(c, file).Some? {
        var found := Parse(c, file).value;
        FileGrows(found, records);
      }
    }
  }

  lemma FileAppends(records: seq<Record>, r: Record)
    ensures FileText(records + [r]) == FileText(records) + (Line(r) + [10])
  {
    hide Line;
    assert (records + [r])[..|records|] == records;
  }

  /** A proper prefix of the records has a strictly shorter file. */
  lemma {:induction false} FileGrows(part: seq<Record>, records: seq<Record>)
    ensures part < records ==> |FileText(part)| < |FileText(records)|
  {
    hide Line;
    if part < records {
      var shorter := records[..|records| - 1];
      if part != shorter {
        assert part < shorter;
        FileGrows(part, shorter);
      }
    }
  }

  // ---- What a device accepts -----------------------------------------------------------

  /** The units taken by the first `n` writes. */
  function Taken(device: seq<int>, n: nat): int
    requires n <= |device|
  {
    if n == 0 then 0 else Taken(device, n - 1) + device[n - 1]
  }

  /** Writes that each make progress and together take exactly `total` units. */
  ghost predicate TakesIn(device: seq<int>, n: nat, total: nat) {
    n <= |device| && (forall i | 0 <= i < n :: device[i] > 0) && Taken(device, n) == total
  }

  /** The device takes `total` units in some number of its first writes. */
  ghost predicate TakesAll(device: seq<int>, total: nat) { exists n: nat :: TakesIn(device, n, total) }

  lemma {:induction false} TakenRises(device: seq<int>, i: nat, j: nat)
    requires i <= j <= |device| && forall k | 0 <= k < j :: device[k] > 0
    ensures if i < j then Taken(device, i) < Taken(device, j) else Taken(device, i) == Taken(device, j)
    decreases j
  {
    if i < j { TakenRises(device, i, j - 1); }
  }

  /** After `call` writes of progress the device cannot take the rest: it is used up, stalls, or takes too much. */
  lemma NeverTakes(device: seq<int>, call: nat, total: nat)
    requires call <= |device| && (forall i | 0 <= i < call :: device[i] > 0) && Taken(device, call) < total
    requires call < |device| ==> device[call] <= 0 || Taken(device, call) + device[call] > total
    ensures !TakesAll(device, total)
  {
    forall n: nat ensures !TakesIn(device, n, total) {
      if TakesIn(device, n, total) {
        if n <= call {
          TakenRises(device, n, call);
        } else {
          TakenRises(device, call + 1, n);
        }
        assert false;
      }
    }
  }

  class Trail {
    const codec: Codec
    var file: Text
    var records: seq<Record>
    var eventBytes: map<Text, Text>
    var closed: bool
    var failed: bool

    ghost predicate Valid()
      reads this
    {
      && LawfulCodec(codec) && GoodTrail(codec, records) && Indexed(codec, eventBytes, records)
      && Torn(codec, file, records)
      && (!failed ==> file == FileText(records))
    }

    constructor (codec: Codec, file: Text, records: seq<Record>, eventBytes: map<Text, Text>)
      requires LawfulCodec(codec) && Parse(codec, file) == Some(records) && Indexed(codec, eventBytes, records)
      ensures Valid() && !closed && !failed
      ensures this.codec == codec && this.file == file && this.records == records
    {
      hide LawfulCodec, Parse, GoodTrail, Indexed, FileText, Torn;
      ParseIff(codec, file, records);
      WholeTorn(codec, records);
      this.codec, this.file, this.records, this.eventBytes := codec, file, records, eventBytes;
      closed, failed := false, false;
    }

    /** `appendAuditTrailRecordV4`: repeated writes until every unit is accepted, then a sync. */
    method WriteLine(line: Text, device: seq<int>, synced: bool) returns (ok: bool, ghost written: nat)
      modifies this`file
      ensures written <= |line| && file == old(file) + line[..written]
      ensures ok ==> written == |line|
      ensures ok <==> synced && TakesAll(device, |line|)
    {
      var offset, call := 0, 0;
      while offset < |line|
        invariant 0 <= offset <= |line| && call <= |device| && offset == Taken(device, call)
        invariant forall i | 0 <= i < call :: device[i] > 0
        invariant file == old(file) + line[..offset]
      {
        var accepted := if call < |device| then device[call] else 0;
        if accepted <= 0 || accepted > |line| - offset {
          NeverTakes(device, call, |line|);
          return false, offset;
        }
        call := call + 1;
        file := file + line[offset..offset + accepted];
        assert line[..offset + accepted] == line[..offset] + line[offset..offset + accepted];
        offset := offset + accepted;
      }
      assert line[..|line|] == line;
      assert TakesIn(device, call, |line|);
      return synced, offset;
    }

    /** One serialized `append`; any rejection poisons the trail for good. */
    method Append(input: Json4, device: seq<int>, synced: bool) returns (r: Result<Record>)
      requires Valid()
      modifies this
      ensures Valid() && closed == old(closed) && old(records) <= records
      ensures r.Ok? <==> !old(closed) && !old(failed) && Appendable(codec, old(records), input, device, synced)
      ensures r.Ok? && |records| > |old(records)| ==>
                r.value.entry == codec.load(input).value && ChainsTo(codec, old(records), r.value)
      ensures old(closed) || old(failed) ==> r.Err? && file == old(file) && records == old(records)
      ensures r.Err? ==> records == old(records) && (failed || old(closed))
      ensures r.Ok? ==> !failed && codec.load(input).Some? && r.value in records
                        && Canonical(r.value.entry) == Canonical(codec.load(input).value)
      ensures r.Ok? && (exists s | s in old(records) :: codec.eventId(s.entry) == codec.eventId(r.value.entry)) ==>
                records == old(records) && file == old(file)
      ensures r.Ok? && !(exists s | s in old(records) :: codec.eventId(s.entry) == codec.eventId(r.value.entry)) ==>
                records == old(records) + [r.value] && Parse(codec, file) == Some(records)
    {
      hide LawfulCodec, GoodTrail, FileText, Line, Continues, Torn, Indexed, Parse, Canonical, NextRecord;
      hide TakesAll, ChainsTo;
      assert Appendable(codec, records, input, device, synced) ==> codec.load(input).Some?;
      hide Appendable;
      if closed {
        return Err("closed");
      }
      if failed {
        return Err("a prior audit append failed");
      }
      var loaded := codec.load(input);
      if loaded.None? {
        failed := true;
        return Err("audit entry is invalid");
      }
      var entry := loaded.value;
      var id, bytes := codec.eventId(entry), Canonical(entry);
      AppendableIff(codec, eventBytes, records, input, device, synced);
      NextRecordIs(codec, records, entry);
      if id in eventBytes {
        if eventBytes[id] != bytes {
          failed := true;
          return Err("conflicting canonical bytes");
        }
        r := Find(id);
        return;
      }
      var record := NextRecord(codec, records, entry);
      Appended(codec, eventBytes, records, input);
      var line := Line(record) + [10];
      var ok, written := WriteLine(line, device, synced);
      WrittenTorn(codec, records, record, written);
      if !ok {
        failed := true;
        return Err("audit write did not complete");
      }
      assert line[..written] == line;
      records := records + [record];
      eventBytes := eventBytes[id := bytes];
      r := Ok(record);
    }

    method Find(id: Text) returns (r: Result<Record>)
      requires Indexed(codec, eventBytes, records) && id in eventBytes
      ensures r.Ok? && r.value in records && codec.eventId(r.value.entry) == id
      ensures Canonical(r.value.entry) == eventBytes[id]
    {
      var i := 0;
      while codec.eventId(records[i].entry) != id
        invariant 0 <= i < |records|
        invariant exists j | i <= j < |records| :: codec.eventId(records[j].entry) == id
        decreases |records| - i
      {
        i := i + 1;
      }
      r := Ok(records[i]);
    }
  }

  /**
   What an append to an open trail succeeds for: an entry that loads, and either is recorded already with the same
   canonical bytes, or is new and taken whole by the device and synced.
   */
  ghost predicate Appendable(c: Codec, records: seq<Record>, input: Json4, device: seq<int>, synced: bool) {
    c.load(input).Some? &&
    var entry := c.load(input).value;
    if exists s | s in records :: c.eventId(s.entry) == c.eventId(entry)
    then exists s | s in records :: c.eventId(s.entry) == c.eventId(entry) && Canonical(s.entry) == Canonical(entry)
    else synced && TakesAll(device, |Line(NextRecord(c, records, entry))| + 1)
  }

  /** The record follows the others: next in number, citing the last hash, and with its own. */
  ghost predicate ChainsTo(c: Codec, records: seq<Record>, r: Record) {
    && r.sequence == |records| + 1 && r.hash == DraftHash(c, r)
    && r.prev == if records == [] then None else Some(records[|records| - 1].hash)
  }

  /** The record an append writes after `records`. */
  function NextRecord(c: Codec, records: seq<Record>, entry: Json4): Record {
    var draft := Record(|records| + 1, LastHash(records), entry, []);
    draft.(hash := DraftHash(c, draft))
  }

  lemma NextRecordIs(c: Codec, records: seq<Record>, entry: Json4)
    ensures NextRecord(c, records, entry).entry == entry && ChainsTo(c, records, NextRecord(c, records, entry))
  {
  }

  /** The index decides whether an append can succeed. */
  lemma AppendableIff(c: Codec, index: map<Text, Text>, records: seq<Record>, input: Json4, device: seq<int>, synced: bool)
    requires Indexed(c, index, records) && c.load(input).Some?
    ensures var entry := c.load(input).value;
            Appendable(c, records, input, device, synced) <==>
              if c.eventId(entry) in index then index[c.eventId(entry)] == Canonical(entry)
              else synced && TakesAll(device, |Line(NextRecord(c, records, entry))| + 1)
  {
    hide Canonical, NextRecord, Line, TakesAll;
    var id := c.eventId(c.load(input).value);
    forall s | s in records && c.eventId(s.entry) == id ensures id in index && Canonical(s.entry) == index[id] {
      var i :| 0 <= i < |records| && records[i] == s;
    }
  }

  lemma NewContinues(c: Codec, index: map<Text, Text>, records: seq<Record>, input: Json4)
    requires LawfulCodec(c) && Indexed(c, index, records) && c.load(input).Some? && c.eventId(c.load(input).value) !in index
    ensures Continues(c, records, NextRecord(c, records, c.load(input).value))
  {
    hide Canonical;
    assert c.load(c.load(input).value) == c.load(input);
  }

  lemma WrittenTorn(c: Codec, records: seq<Record>, r: Record, n: nat)
    requires Continues(c, records, r) && n <= |Line(r)| + 1
    ensures Torn(c, FileText(records) + (Line(r) + [10])[..n], records)
  {
    hide Continues, Line, FileText;
    assert TornAt(c, FileText(records) + (Line(r) + [10])[..n], records, r, n);
  }

  lemma WholeTorn(c: Codec, records: seq<Record>)
    ensures Torn(c, FileText(records), records)
  {
    hide FileText;
  }

  /** The state a completed append of a new entry leaves. */
  lemma Appended(c: Codec, index: map<Text, Text>, records: seq<Record>, input: Json4)
    requires LawfulCodec(c) && GoodTrail(c, records) && Indexed(c, index, records)
    requires c.load(input).Some? && c.eventId(c.load(input).value) !in index
    ensures var entry := c.load(input).value;
            var r := NextRecord(c, records, entry);
            && r.entry == entry && Continues(c, records, r) && GoodTrail(c, records + [r])
            && FileText(records + [r]) == FileText(records) + (Line(r) + [10])
            && Torn(c, FileText(records + [r]), records + [r]) && Parse(c, FileText(records + [r])) == Some(records + [r])
            && Indexed(c, index[c.eventId(entry) := Canonical(entry)], records + [r])
            && forall s | s in records :: c.eventId(s.entry) != c.eventId(entry)
  {
    hide LawfulCodec, GoodTrail, Line, Continues, Torn, Indexed, Parse, Canonical, FileText;
    var entry := c.load(input).value;
    var r := NextRecord(c, records, entry);
    NewContinues(c, index, records, input);
    GoodExtend(c, records, r);
    FileAppends(records, r);
    WholeTorn(c, records + [r]);
    ParseIff(c, FileText(records + [r]), records + [r]);
    IndexFresh(c, index, records, r);
  }

  lemma IndexFresh(c: Codec, index: map<Text, Text>, records: seq<Record>, r: Record)
    requires Indexed(c, index, records) && c.eventId(r.entry) !in index
    ensures Indexed(c, index[c.eventId(r.entry) := Canonical(r.entry)], records + [r])
    ensures forall s | s in records :: c.eventId(s.entry) != c.eventId(r.entry)
  {
    hide Canonical;
    IndexedAgrees(c, index, records, r.entry);
    IndexedExtends(c, index, records, r);
  }

  method IndexRecords(codec: Codec, records: seq<Record>) returns (eventBytes: map<Text, Text>)
    requires GoodTrail(codec, records)
    ensures Indexed(codec, eventBytes, records)
  {
    hide Canonical, Indexed, Agrees, DraftHash;
    IndexedEmpty(codec);
    eventBytes := map[];
    assert records[..0] == [];
    for i := 0 to |records|
      invariant Indexed(codec, eventBytes, records[..i])
    {
      assert Continues(codec, records[..i], records[i]);
      IndexedExtends(codec, eventBytes, records[..i], records[i]);
      assert records[..i + 1] == records[..i] + [records[i]];
      eventBytes := eventBytes[codec.eventId(records[i].entry) := Canonical(records[i].entry)];
    }
    assert records[..|records|] == records;
  }

  /** `openAuditTrail`: reads the file; a file the parser rejects is not opened. */
  method Open(codec: Codec, file: Text) returns (trail: Trail?)
    requires LawfulCodec(codec)
    ensures trail == null <==> Parse(codec, file).None?
    ensures trail != null ==> fresh(trail) && trail.Valid() && trail.codec == codec && trail.file == file
                              && Some(trail.records) == Parse(codec, file) && !trail.closed && !trail.failed
  {
    hide Canonical, Parse, LawfulCodec, GoodTrail, Indexed, FileText, Torn;
    var parsed := ParseRecords(codec, file);
    if parsed.None? {
      return null;
    }
    ParseIff(codec, file, parsed.value);
    var eventBytes := IndexRecords(codec, parsed.value);
    trail := new Trail(codec, file, parsed.value, eventBytes);
  }
}
