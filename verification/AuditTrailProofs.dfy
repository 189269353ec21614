/** Which files the audit parser accepts, and what a shared last hash says about two of them. */
module AuditTrailProofs {
  import opened Prelude
  import opened CanonicalJson
  import opened CanonicalJsonProofs
  import opened AuditTrail

  // ---- Lines -----------------------------------------------------------------------

  function Unlines(lines: seq<Text>): Text {
    if lines == [] then [] else lines[0] + [10] + Unlines(lines[1..])
  }

  ghost predicate NoFeed(lines: seq<Text>) { forall i | 0 <= i < |lines| :: 10 !in lines[i] }

  lemma UnlinesCons(u: Unit, lines: seq<Text>)
    requires lines != []
    ensures Unlines([[u] + lines[0]] + lines[1..]) == [u] + Unlines(lines)
  {
    var longer := [[u] + lines[0]] + lines[1..];
    assert longer[1..] == lines[1..];
    assert [u] + lines[0] + [10] + Unlines(lines[1..]) == [u] + (lines[0] + [10] + Unlines(lines[1..]));
  }

  lemma {:induction false} UnlinesSplit(t: Text)
    ensures Unlines(Split(t)) == t + [10]
  {
    hide Unlines;
    if t == [] {
      UnlinesEmpty();
    } else {
      UnlinesSplit(t[1..]);
      assert t == [t[0]] + t[1..];
      if t[0] == 10 {
        UnlinesHead([], Split(t[1..]));
      } else {
        UnlinesCons(t[0], Split(t[1..]));
      }
    }
  }

  lemma UnlinesEmpty()
    ensures Unlines([[]]) == [10]
  {
  }

  lemma UnlinesHead(line: Text, lines: seq<Text>)
    ensures Unlines([line] + lines) == line + [10] + Unlines(lines)
  {
    assert ([line] + lines)[1..] == lines;
  }

  lemma {:induction false} SplitLine(line: Text, rest: Text)
    requires 10 !in line
    ensures Split(line) == [line]
    ensures Split(line + [10] + rest) == [line] + Split(rest)
  {
    if line == [] {
      assert line + [10] + rest == [10] + rest && ([10] + rest)[1..] == rest;
    } else {
      SplitLine(line[1..], rest);
      assert (line + [10] + rest)[1..] == line[1..] + [10] + rest;
      assert line == [line[0]] + line[1..];
      assert line[0] in line;
    }
  }

  lemma {:induction false} SplitUnlines(lines: seq<Text>)
    requires lines != [] && NoFeed(lines)
    ensures Unlines(lines) != [] && Unlines(lines)[|Unlines(lines)| - 1] == 10
    ensures Split(Unlines(lines)[..|Unlines(lines)| - 1]) == lines
  {
    var all := Unlines(lines);
    if |lines| == 1 {
      assert all[..|all| - 1] == lines[0];
      SplitLine(lines[0], []);
    } else {
      var rest := Unlines(lines[1..]);
      SplitUnlines(lines[1..]);
      SplitLine(lines[0], rest[..|rest| - 1]);
      assert all[..|all| - 1] == lines[0] + [10] + rest[..|rest| - 1];
      assert lines == [lines[0]] + lines[1..];
    }
  }

  lemma {:induction false} UnlinesAppend(lines: seq<Text>, line: Text)
    ensures Unlines(lines + [line]) == Unlines(lines) + line + [10]
  {
    if lines == [] {
      assert Unlines([line]) == line + [10];
      assert lines + [line] == [line];
    } else {
      UnlinesAppend(lines[1..], line);
      assert (lines + [line])[1..] == lines[1..] + [line];
    }
  }

  /** A file of complete lines that begins another such file consists of its first lines. */
  lemma {:induction false} PrefixOfLines(a: seq<Text>, b: seq<Text>)
    requires NoFeed(a) && NoFeed(b) && Unlines(a) <= Unlines(b)
    ensures a <= b
  {
    if a != [] {
      var s, t := Unlines(a), Unlines(b);
      var n := |a[0]|;
      assert s[n] == 10 && forall k | 0 <= k < n :: s[k] == a[0][k];
      assert forall k | 0 <= k <= n :: s[k] == t[k];
      FirstFeed(b, n);
      assert s[..n] == a[0] && t[..n] == b[0];
      assert s[n + 1..] == Unlines(a[1..]) && t[n + 1..] == Unlines(b[1..]);
      PrefixOfLines(a[1..], b[1..]);
      assert |a| <= |b|;
      forall i | 0 <= i < |a|
        ensures a[i] == b[i]
      {
        assert i == 0 || (a[i] == a[1..][i - 1] && b[i] == b[1..][i - 1]);
      }
    }
  }

  lemma FirstFeed(lines: seq<Text>, n: nat)
    requires NoFeed(lines) && n < |Unlines(lines)| && Unlines(lines)[n] == 10
    requires forall k | 0 <= k < n :: Unlines(lines)[k] != 10
    ensures lines != [] && |lines[0]| == n
  {
    var t := Unlines(lines);
    assert t[|lines[0]|] == 10 && forall k | 0 <= k < |lines[0]| :: t[k] == lines[0][k];
  }

  // ---- Files -----------------------------------------------------------------------

  function Lines(records: seq<Record>): seq<Text> {
    seq(|records|, i requires 0 <= i < |records| => Line(records[i]))
  }

  lemma LinesAppend(records: seq<Record>, r: Record)
    ensures Lines(records + [r]) == Lines(records) + [Line(r)]
  {
    hide Line;
  }

  lemma {:induction false} FileIsLines(records: seq<Record>)
    ensures FileText(records) == Unlines(Lines(records))
  {
    hide Line;
    if records != [] {
      FileIsLines(records[..|records| - 1]);
      LinesAppend(records[..|records| - 1], records[|records| - 1]);
      assert records == records[..|records| - 1] + [records[|records| - 1]];
      UnlinesAppend(Lines(records[..|records| - 1]), Line(records[|records| - 1]));
    }
  }

  lemma LinesHaveNoFeed(records: seq<Record>)
    ensures NoFeed(Lines(records))
  {
    hide Line;
    forall i | 0 <= i < |records|
      ensures 10 !in Lines(records)[i]
    {
      LineHasNoFeed(records[i]);
    }
  }

  lemma LineHasNoFeed(r: Record)
    ensures 10 !in Line(r)
  {
    IntegersLawful();
    SerializesOnOneLine(Integers, JObject(RecordMembers(r)));
    hide Serialize;
  }

  lemma GoodPrefix(c: Codec, records: seq<Record>, n: nat)
    requires GoodTrail(c, records) && n <= |records|
    ensures GoodTrail(c, records[..n])
  {
    hide Continues;
    forall i | 0 <= i < n
      ensures Continues(c, records[..n][..i], records[..n][i])
    {
      assert records[..n][..i] == records[..i];
    }
  }

  lemma GoodExtend(c: Codec, records: seq<Record>, r: Record)
    requires GoodTrail(c, records) && Continues(c, records, r)
    ensures GoodTrail(c, records + [r])
  {
    hide Continues;
    var longer := records + [r];
    forall i | 0 <= i < |longer|
      ensures Continues(c, longer[..i], longer[i])
    {
      assert longer[..i] == if i < |records| then records[..i] else records;
    }
  }

  lemma ContinuesParses(c: Codec, records: seq<Record>, r: Record)
    requires LawfulCodec(c) && Continues(c, records, r)
    ensures ParseNext(c, records, Line(r)) == Some(r)
  {
    hide LawfulCodec, DraftHash, ParseLine, Line, Agrees;
    LineParses(c, r);
  }

  lemma ParsedContinues(c: Codec, records: seq<Record>, line: Text)
    requires LawfulCodec(c) && ParseNext(c, records, line).Some?
    ensures Continues(c, records, ParseNext(c, records, line).value) && Line(ParseNext(c, records, line).value) == line
  {
    hide LawfulCodec, DraftHash, ParseLine, Line, Agrees;
    ParsedLine(c, line);
  }

  lemma {:induction false} GoodParses(c: Codec, records: seq<Record>, n: nat)
    requires LawfulCodec(c) && GoodTrail(c, records) && n <= |records|
    ensures ParseLines(c, Lines(records), n) == Some(records[..n])
  {
    hide LawfulCodec, ParseNext, Line, Continues;
    if n > 0 {
      GoodParses(c, records, n - 1);
      assert Continues(c, records[..n - 1], records[n - 1]);
      ContinuesParses(c, records[..n - 1], records[n - 1]);
      assert records[..n] == records[..n - 1] + [records[n - 1]];
    }
  }

  lemma {:induction false} ParsedGood(c: Codec, lines: seq<Text>, n: nat)
    requires LawfulCodec(c) && n <= |lines| && ParseLines(c, lines, n).Some?
    ensures GoodTrail(c, ParseLines(c, lines, n).value) && Lines(ParseLines(c, lines, n).value) == lines[..n]
  {
    hide LawfulCodec, ParseNext, Line, Continues;
    if n > 0 {
      ParsedGood(c, lines, n - 1);
      var records := ParseLines(c, lines, n - 1).value;
      ParsedContinues(c, records, lines[n - 1]);
      GoodExtend(c, records, ParseNext(c, records, lines[n - 1]).value);
      LinesAppend(records, ParseNext(c, records, lines[n - 1]).value);
      assert lines[..n] == lines[..n - 1] + [lines[n - 1]];
    }
  }

  /** The parser accepts exactly the files an unbroken chain is written as, and returns that chain. */
  lemma ParseIff(c: Codec, file: Text, records: seq<Record>)
    requires LawfulCodec(c)
    ensures Parse(c, file) == Some(records) <==> GoodTrail(c, records) && file == FileText(records)
  {
    hide LawfulCodec, Parse, GoodTrail, FileText;
    if GoodTrail(c, records) && file == FileText(records) {
      WrittenFile(c, records);
    }
    if Parse(c, file) == Some(records) {
      ParsedFile(c, file, records);
    }
  }

  lemma WrittenFile(c: Codec, records: seq<Record>)
    requires LawfulCodec(c) && GoodTrail(c, records)
    ensures Parse(c, FileText(records)) == Some(records)
  {
    hide LawfulCodec, Parse, ParseLines, GoodTrail, Lines, NoFeed, Unlines, Line;
    if records == [] {
      EmptyFile(c);
    } else {
      hide FileText;
      FileIsLines(records);
      LinesHaveNoFeed(records);
      LinesCount(records);
      ParseOfLines(c, Lines(records));
      GoodParses(c, records, |records|);
      assert records[..|records|] == records;
    }
  }

  lemma EmptyFile(c: Codec)
    ensures Parse(c, []) == Some([])
  {
  }

  lemma ParseOfLines(c: Codec, lines: seq<Text>)
    requires lines != [] && NoFeed(lines)
    ensures Parse(c, Unlines(lines)) == ParseLines(c, lines, |lines|)
  {
    hide ParseLines, Split, Unlines, NoFeed;
    SplitUnlines(lines);
  }

  lemma LinesCount(records: seq<Record>)
    ensures |Lines(records)| == |records|
  {
  }

  lemma ParsedFile(c: Codec, file: Text, records: seq<Record>)
    requires LawfulCodec(c) && Parse(c, file) == Some(records)
    ensures GoodTrail(c, records) && file == FileText(records)
  {
    hide LawfulCodec, ParseLines, FileText, Continues, Line;
    FileIsLines(records);
    if file != [] {
      var body := file[..|file| - 1];
      var lines := Split(body);
      ParsedGood(c, lines, |lines|);
      assert lines[..|lines|] == lines;
      UnlinesSplit(body);
      assert file == body + [10];
    }
  }

  /**
   A prefix of a trail's file is accepted exactly when it ends at a record boundary, and then it parses to
   the records before that boundary; any other cut is rejected.
   */
  lemma PrefixParses(c: Codec, records: seq<Record>, cut: Text)
    requires LawfulCodec(c) && GoodTrail(c, records) && cut <= FileText(records)
    ensures Parse(c, cut).Some? <==> exists k | 0 <= k <= |records| :: cut == FileText(records[..k])
    ensures Parse(c, cut).Some? ==> Parse(c, cut).value <= records && cut == FileText(Parse(c, cut).value)
  {
    hide LawfulCodec, Parse, GoodTrail, FileText, Line;
    if Parse(c, cut).Some? {
      var part := Parse(c, cut).value;
      ParseIff(c, cut, part);
      FileIsLines(part);
      FileIsLines(records);
      LinesHaveNoFeed(part);
      LinesHaveNoFeed(records);
      PrefixOfLines(Lines(part), Lines(records));
      SameLines(c, part, records);
      assert part == records[..|part|];
    }
    forall k | 0 <= k <= |records| && cut == FileText(records[..k])
      ensures Parse(c, cut).Some?
    {
      GoodPrefix(c, records, k);
      ParseIff(c, cut, records[..k]);
    }
  }

  lemma SameLines(c: Codec, part: seq<Record>, records: seq<Record>)
    requires LawfulCodec(c) && GoodTrail(c, part) && GoodTrail(c, records) && Lines(part) <= Lines(records)
    ensures part <= records
  {
    hide LawfulCodec, Line, DraftHash, Agrees, ParseLine;
    forall i | 0 <= i < |part|
      ensures part[i] == records[i]
    {
      assert Lines(part)[i] == Lines(records)[i];
      assert Continues(c, part[..i], part[i]) && Continues(c, records[..i], records[i]);
      LineParses(c, part[i]);
      LineParses(c, records[i]);
    }
  }

  // ---- The chain -------------------------------------------------------------------

  ghost predicate InjectiveHash(c: Codec) { forall x, y :: c.sha(x) == c.sha(y) ==> x == y }

  /** Under an injective hash, equal record hashes mean equal records. */
  lemma HashFixesRecord(c: Codec, r: Record, s: Record)
    requires LawfulCodec(c) && InjectiveHash(c) && r.hash == s.hash
    requires r.hash == DraftHash(c, r) && c.load(r.entry) == Some(r.entry)
    requires s.hash == DraftHash(c, s) && c.load(s.entry) == Some(s.entry)
    ensures r == s
  {
    hide Units, Serialize;
    assert Canonical(JObject(DraftMembers(r))) == Canonical(JObject(DraftMembers(s)));
    PlainRecord(r);
    PlainRecord(s);
    IntegersLawful();
    TextIffMeaning(Integers, JObject(DraftMembers(r)), JObject(DraftMembers(s)));
    DraftFields(r);
    DraftFields(s);
    assert Meaning(r.entry) == Meaning(s.entry);
    assert c.load(r.entry) == c.load(s.entry);
  }

  lemma DraftFields(r: Record)
    requires Plain(r.entry)
    ensures Meaning(JObject(DraftMembers(r))).VObject?
    ensures var f := Meaning(JObject(DraftMembers(r))).fields;
            && Units("sequence") in f && f[Units("sequence")] == VNumber(r.sequence)
            && Units("prev_hash") in f && f[Units("prev_hash")] == (if r.prev.None? then VNull else VString(r.prev.value))
            && Units("entry") in f && f[Units("entry")] == Meaning(r.entry)
  {
    hide Units, Fields;
    RecordKeys(r);
    FieldsOf(DraftMembers(r));
    assert DraftMembers(r)[1] in DraftMembers(r) && DraftMembers(r)[2] in DraftMembers(r) && DraftMembers(r)[3] in DraftMembers(r);
  }

  lemma {:induction false} ChainFixed(c: Codec, a: seq<Record>, b: seq<Record>)
    requires LawfulCodec(c) && InjectiveHash(c) && GoodTrail(c, a) && GoodTrail(c, b) && LastHash(a) == LastHash(b)
    ensures a == b
  {
    hide LawfulCodec, InjectiveHash, DraftHash, Agrees;
    if a != [] {
      var n := |a| - 1;
      assert Continues(c, a[..n], a[n]) && Continues(c, b[..|b| - 1], b[|b| - 1]);
      HashFixesRecord(c, a[n], b[|b| - 1]);
      GoodPrefix(c, a, n);
      GoodPrefix(c, b, |b| - 1);
      ChainFixed(c, a[..n], b[..|b| - 1]);
      assert a == a[..n] + [a[n]] && b == b[..|b| - 1] + [b[|b| - 1]];
    }
  }

  // ---- A lawful loader -----------------------------------------------------------------

  ghost predicate PlainForm(v: Json4, w: Json4) { Plain(w) && Meaning(w) == Meaning(v) }

  /** The loader that accepts whatever means the same as a plain value, and puts members in key order. */
  ghost function LoadSorted(v: Json4): Option<Json4> {
    if exists w :: PlainForm(v, w) then var w :| PlainForm(v, w); Some(Canon(w)) else None
  }

  /** The laws asked of the loader can be kept, even by one that accepts every plain entry. */
  lemma SortedLoaderLawful(sha: Text -> Text, eventId: Json4 -> Text)
    ensures LawfulCodec(Codec(sha, LoadSorted, eventId)) && forall v | Plain(v) :: LoadSorted(v).Some?
  {
    hide Plain, Meaning, Canon;
    forall v: Json4 | Plain(v) ensures LoadSorted(v).Some? { assert PlainForm(v, v); }
    forall v: Json4, w: Json4 | PlainForm(v, w) ensures LoadSorted(v) == Some(Canon(w)) { LoadedForm(v, w); }
    forall v: Json4 | LoadSorted(v).Some?
      ensures Plain(LoadSorted(v).value) && Meaning(LoadSorted(v).value) == Meaning(v)
      ensures LoadSorted(LoadSorted(v).value) == LoadSorted(v)
    {
      var w :| PlainForm(v, w);
      PlainCanon(w);
      IntegersLawful();
      CanonKeepsMeaning(Integers, w);
      assert PlainForm(Canon(w), w);
    }
    forall v: Json4, w: Json4 | Meaning(v) == Meaning(w) ensures LoadSorted(v) == LoadSorted(w) {
      assert forall x :: PlainForm(v, x) <==> PlainForm(w, x);
      if x :| PlainForm(v, x) {
        assert PlainForm(w, x);
      }
    }
  }

  /** Whatever plain form is chosen, sorting its members gives the same value. */
  lemma LoadedForm(v: Json4, w: Json4)
    requires PlainForm(v, w)
    ensures LoadSorted(v) == Some(Canon(w))
  {
    hide Plain, Meaning, Canon, Serialize, Decode;
    var u :| PlainForm(v, u) && LoadSorted(v) == Some(Canon(u));
    IntegersLawful();
    SameMeaningSameText(Integers, u, w);
    DecodesCanonically(Integers, u);
    DecodesCanonically(Integers, w);
  }

  // ---- The last hash -------------------------------------------------------------------

  /** Under an injective hash, two files that verify with the same last hash are the same, unit for unit. */
  lemma SameLastHashSameFile(c: Codec, file: Text, other: Text)
    requires LawfulCodec(c) && InjectiveHash(c)
    requires Parse(c, file).Some? && Parse(c, other).Some?
    requires LastHash(Parse(c, file).value) == LastHash(Parse(c, other).value)
    ensures file == other
  {
    hide LawfulCodec, InjectiveHash, Parse, GoodTrail;
    ParseIff(c, file, Parse(c, file).value);
    ParseIff(c, other, Parse(c, other).value);
    ChainFixed(c, Parse(c, file).value, Parse(c, other).value);
  }
}
