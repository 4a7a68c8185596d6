/**
 `run` of main.go:48-168 without its goroutines and channels: every chunk is
 aggregated on its own (main.go:84-124) and every partial map is merged into
 the one result (main.go:132-155). Chunks are taken in the order their
 partials reach the merger; `chunks` is that order.
 */
module Pipeline {
  import opened Summaries
  import opened Lines
  import opened Aggregate
  import opened Merge

  /** The lines the workers see: each chunk scanned on its own, so a line
      cut by a chunk boundary is seen as two fragments. */
  function AllLines(chunks: seq<seq<Byte>>): (lines: seq<seq<Byte>>)
    ensures |lines| <= |Concat(chunks)|
  {
    if chunks == [] then []
    else AllLines(chunks[..|chunks| - 1]) + ScanLines(chunks[|chunks| - 1])
  }

  /** The bytes of the chunks, one after the other. */
  function Concat(chunks: seq<seq<Byte>>): seq<Byte>
  {
    if chunks == [] then [] else Concat(chunks[..|chunks| - 1]) + chunks[|chunks| - 1]
  }

  /** The final map as written: each partial merged with `KeepExisting`. */
  function KeptFirst(chunks: seq<seq<Byte>>, parse: seq<Byte> -> Option<Value>): Places
  {
    if chunks == [] then map[]
    else KeepExisting(KeptFirst(chunks[..|chunks| - 1], parse), ChunkSummary(chunks[|chunks| - 1], parse))
  }

  // ---------------------------------------------------------------------
  // Splitting the lines splits the map.
  // ---------------------------------------------------------------------

  /** Aggregating `a + b` is merging the aggregates of `a` and of `b`. */
  lemma AggregateAppend(a: seq<seq<Byte>>, b: seq<seq<Byte>>, parse: seq<Byte> -> Option<Value>)
    ensures AggregateLines(a + b, parse) == Merged(AggregateLines(a, parse), AggregateLines(b, parse))
  {
    var m := AggregateLines(a + b, parse);
    var ma, mb := AggregateLines(a, parse), AggregateLines(b, parse);
    var mm := Merged(ma, mb);
    forall k
      ensures k in m <==> k in mm
      ensures k in m ==> m[k] == mm[k]
    {
      AggregateMatchesValues(a + b, parse, k);
      AggregateMatchesValues(a, parse, k);
      AggregateMatchesValues(b, parse, k);
      ValuesAppend(a, b, parse, k);
      var va, vb := ValuesOf(a, parse, k), ValuesOf(b, parse, k);
      if |va| > 0 && |vb| > 0 {
        CombineConcat(va, vb);
      } else if |va| > 0 {
        assert va + vb == va;
      } else if |vb| > 0 {
        assert va + vb == vb;
      }
    }
  }

  lemma AllLinesLast(chunks: seq<seq<Byte>>, chunk: seq<Byte>)
    ensures AllLines(chunks + [chunk]) == AllLines(chunks) + ScanLines(chunk)
  {
    assert (chunks + [chunk])[..|chunks|] == chunks;
  }

  lemma {:induction false} AllLinesAppend(a: seq<seq<Byte>>, b: seq<seq<Byte>>)
    ensures AllLines(a + b) == AllLines(a) + AllLines(b)
    decreases |b|
  {
    if b == [] {
      assert a + b == a;
    } else {
      var b', last := b[..|b| - 1], b[|b| - 1];
      assert AllLines(a + b) == AllLines(a + b') + ScanLines(last) by {
        assert a + b == (a + b') + [last];
        AllLinesLast(a + b', last);
      }
      assert AllLines(b) == AllLines(b') + ScanLines(last) by {
        AllLinesLast(b', last);
        assert b' + [last] == b;
      }
      AllLinesAppend(a, b');
      AppendAssociative(AllLines(a), AllLines(b'), ScanLines(last));
    }
  }

  lemma AppendAssociative<T>(x: seq<T>, y: seq<T>, z: seq<T>)
    ensures (x + y) + z == x + (y + z)
  {
  }

  // ---------------------------------------------------------------------
  // The corrected pipeline.
  // ---------------------------------------------------------------------

  /**
   The pipeline with the corrected merge: the result is the aggregate of
   every line of every chunk, and every entry is well formed.
   */
  method Run(chunks: seq<seq<Byte>>, parse: seq<Byte> -> Option<Value>) returns (result: Places)
    ensures result == AggregateLines(AllLines(chunks), parse)
    ensures forall k :: k in result ==> WellFormed(result[k])
  {
    result := map[];
    var i := 0;
    while i < |chunks|
      invariant i <= |chunks|
      invariant result == AggregateLines(AllLines(chunks[..i]), parse)
    {
      var places := AggregateChunk(chunks[i], parse);
      result := MergeCombined(result, places);
      assert chunks[..i + 1] == chunks[..i] + [chunks[i]];
      AllLinesLast(chunks[..i], chunks[i]);
      AggregateAppend(AllLines(chunks[..i]), ScanLines(chunks[i]), parse);
      i := i + 1;
    }
    assert chunks[..i] == chunks;
    AggregateWellFormed(AllLines(chunks), parse);
  }

  /** The order in which partials arrive does not change the result: two
      neighbouring chunks may trade places (and so may any permutation,
      which is a series of such exchanges). */
  lemma RunOrderIndependent(a: seq<seq<Byte>>, x: seq<Byte>, y: seq<Byte>, b: seq<seq<Byte>>, parse: seq<Byte> -> Option<Value>)
    ensures AggregateLines(AllLines(a + [x, y] + b), parse) == AggregateLines(AllLines(a + [y, x] + b), parse)
  {
    var lx, ly := ScanLines(x), ScanLines(y);
    AllLinesAround(a, x, y, b);
    AllLinesAround(a, y, x, b);
    assert AggregateLines(lx + ly, parse) == AggregateLines(ly + lx, parse) by {
      AggregateAppend(lx, ly, parse);
      AggregateAppend(ly, lx, parse);
      MergedCommutative(AggregateLines(lx, parse), AggregateLines(ly, parse));
    }
    AggregateAround(AllLines(a), lx + ly, ly + lx, AllLines(b), parse);
  }

  lemma AllLinesAround(a: seq<seq<Byte>>, x: seq<Byte>, y: seq<Byte>, b: seq<seq<Byte>>)
    ensures AllLines(a + [x, y] + b) == AllLines(a) + (ScanLines(x) + ScanLines(y)) + AllLines(b)
  {
    AllLinesAppend(a + [x, y], b);
    AllLinesAppend(a, [x, y]);
    AllLinesTwo(x, y);
  }

  /** Lines with equal aggregates may replace each other amid other lines. */
  lemma AggregateAround(la: seq<seq<Byte>>, l1: seq<seq<Byte>>, l2: seq<seq<Byte>>, lb: seq<seq<Byte>>,
                        parse: seq<Byte> -> Option<Value>)
    requires AggregateLines(l1, parse) == AggregateLines(l2, parse)
    ensures AggregateLines(la + l1 + lb, parse) == AggregateLines(la + l2 + lb, parse)
  {
    AggregateAppend(la + l1, lb, parse);
    AggregateAppend(la, l1, parse);
    AggregateAppend(la + l2, lb, parse);
    AggregateAppend(la, l2, parse);
  }

  /** Chunks cut at line ends give the result of scanning the whole input at
      once. */
  lemma {:induction false} LineAlignedChunks(chunks: seq<seq<Byte>>)
    requires forall j :: 0 <= j < |chunks| ==> |chunks[j]| == 0 || chunks[j][|chunks[j]| - 1] == Newline
    ensures AllLines(chunks) == ScanLines(Concat(chunks))
    ensures |Concat(chunks)| == 0 || Concat(chunks)[|Concat(chunks)| - 1] == Newline
    decreases |chunks|
  {
    if chunks != [] {
      var prefix, last := chunks[..|chunks| - 1], chunks[|chunks| - 1];
      assert forall j :: 0 <= j < |prefix| ==> prefix[j] == chunks[j];
      LineAlignedChunks(prefix);
      var before := Concat(prefix);
      assert Concat(chunks) == before + last;
      assert AllLines(chunks) == AllLines(prefix) + ScanLines(last);
      ScanAppend(before, last);
      EndsWithNewlineAppend(before, last);
    }
  }

  lemma EndsWithNewlineAppend(a: seq<Byte>, b: seq<Byte>)
    requires |a| == 0 || a[|a| - 1] == Newline
    requires |b| == 0 || b[|b| - 1] == Newline
    ensures |a + b| == 0 || (a + b)[|a + b| - 1] == Newline
  {
    if |b| == 0 {
      assert a + b == a;
    } else {
      assert (a + b)[|a + b| - 1] == b[|b| - 1];
    }
  }

  /** The lines of a single chunk are that chunk's lines. */
  lemma AllLinesOne(chunk: seq<Byte>)
    ensures AllLines([chunk]) == ScanLines(chunk)
  {
    AllLinesLast([], chunk);
    assert [] + [chunk] == [chunk];
  }

  /** The lines of two chunks are the lines of the first, then of the second. */
  lemma AllLinesTwo(c1: seq<Byte>, c2: seq<Byte>)
    ensures AllLines([c1, c2]) == ScanLines(c1) + ScanLines(c2)
  {
    AllLinesOne(c1);
    AllLinesLast([c1], c2);
    assert [c1] + [c2] == [c1, c2];
  }

  /** A chunk holding one terminated line. */
  lemma ScanOneLine(line: seq<Byte>)
    requires Plain(line)
    ensures ScanLines(line + [Newline]) == [line]
  {
    assert [line][1..] == [];
    assert Terminated([line]) == line + [Newline] + Terminated([]);
    assert line + [Newline] + [] == line + [Newline];
    ScanTerminated([line]);
  }

  lemma AggregateOne(l: seq<Byte>, parse: seq<Byte> -> Option<Value>)
    ensures AggregateLines([l], parse) == Step(map[], l, parse)
  {
    AggregateLast([], l, parse);
    assert [] + [l] == [l];
  }

  lemma AggregateTwo(l1: seq<Byte>, l2: seq<Byte>, parse: seq<Byte> -> Option<Value>)
    ensures AggregateLines([l1, l2], parse) == Step(Step(map[], l1, parse), l2, parse)
  {
    AggregateOne(l1, parse);
    AggregateLast([l1], l2, parse);
    assert [l1] + [l2] == [l1, l2];
  }

  /** A chunk holding one terminated reading yields that reading alone. */
  lemma OneLineChunk(name: seq<Byte>, text: seq<Byte>, parse: seq<Byte> -> Option<Value>)
    requires Semicolon !in name && Newline !in name
    requires Semicolon !in text && Plain(text)
    requires parse(text).Some?
    ensures AggregateLines(AllLines([name + [Semicolon] + text + [Newline]]), parse)
              == map[name := Single(parse(text).value)]
  {
    var whole := name + [Semicolon] + text;
    assert Plain(whole);
    assert whole + [Newline] == name + [Semicolon] + text + [Newline];
    AllLinesOne(whole + [Newline]);
    ScanOneLine(whole);
    AggregateOne(whole, parse);
    ParseLineOf(name, text, parse);
    FirstReading(map[], whole, parse, name, parse(text).value);
  }

  /** A fragment without `;` is no reading. */
  lemma FieldIsNoReading(text: seq<Byte>, parse: seq<Byte> -> Option<Value>)
    requires Semicolon !in text
    ensures ParseLine(text, parse) == None
  {
    SplitCount(text, Semicolon);
    assert multiset(text)[Semicolon] == 0;
  }

  /**
   A reading cut by a chunk boundary right after its `;` is lost: the first
   fragment has an empty value field, which does not parse, and the second
   has no `;` at all. Unsplit, the same line is a reading.
   */
  lemma CutLineIsLost(name: seq<Byte>, text: seq<Byte>, parse: seq<Byte> -> Option<Value>)
    requires Semicolon !in name && Newline !in name
    requires Semicolon !in text && Plain(text)
    requires parse([]) == None && parse(text).Some?
    ensures AggregateLines(AllLines([name + [Semicolon], text + [Newline]]), parse) == map[]
    ensures AggregateLines(AllLines([name + [Semicolon] + text + [Newline]]), parse)
              == map[name := Single(parse(text).value)]
  {
    OneLineChunk(name, text, parse);
    var first := name + [Semicolon];
    assert AllLines([first, text + [Newline]]) == [first, text] by {
      assert Plain(first);
      ScanUnterminated(first);
      ScanOneLine(text);
      AllLinesTwo(first, text + [Newline]);
    }
    assert ParseLine(first, parse) == None by {
      assert first == name + [Semicolon] + [];
      ParseLineOf(name, [], parse);
    }
    FieldIsNoReading(text, parse);
    AggregateTwo(first, text, parse);
  }

  /**
   A reading cut by a chunk boundary inside its station name is credited to
   the wrong station: the first fragment has no `;` and is skipped, and the
   second is a reading of the name's tail `q`. Unsplit, the reading belongs
   to `p + q`.
   */
  lemma CutNameMisattributed(p: seq<Byte>, q: seq<Byte>, text: seq<Byte>, parse: seq<Byte> -> Option<Value>)
    requires |p| > 0 && Semicolon !in p && Plain(p)
    requires Semicolon !in q && Newline !in q
    requires Semicolon !in text && Plain(text)
    requires parse(text).Some?
    ensures AggregateLines(AllLines([p, q + [Semicolon] + text + [Newline]]), parse)
              == map[q := Single(parse(text).value)]
    ensures AggregateLines(AllLines([p + q + [Semicolon] + text + [Newline]]), parse)
              == map[p + q := Single(parse(text).value)]
  {
    var second := q + [Semicolon] + text;
    assert AllLines([p, second + [Newline]]) == [p, second] by {
      assert Plain(second);
      ScanUnterminated(p);
      ScanOneLine(second);
      AllLinesTwo(p, second + [Newline]);
    }
    FieldIsNoReading(p, parse);
    ParseLineOf(q, text, parse);
    AggregateTwo(p, second, parse);
    FirstReading(map[], second, parse, q, parse(text).value);
    assert Semicolon !in p + q && Newline !in p + q;
    OneLineChunk(p + q, text, parse);
  }

  /**
   A reading cut by a chunk boundary inside its value is recorded with the
   wrong value: the first fragment is a reading of `t1` alone, and the second
   has no `;` and is skipped. Unsplit, the value is that of `t1 + t2`.
   */
  lemma CutValueMisread(name: seq<Byte>, t1: seq<Byte>, t2: seq<Byte>, parse: seq<Byte> -> Option<Value>)
    requires Semicolon !in name && Newline !in name
    requires |t1| > 0 && Semicolon !in t1 && Plain(t1)
    requires Semicolon !in t2 && Plain(t2)
    requires parse(t1).Some? && parse(t1 + t2).Some?
    ensures AggregateLines(AllLines([name + [Semicolon] + t1, t2 + [Newline]]), parse)
              == map[name := Single(parse(t1).value)]
    ensures AggregateLines(AllLines([name + [Semicolon] + t1 + t2 + [Newline]]), parse)
              == map[name := Single(parse(t1 + t2).value)]
  {
    CutValueFragments(name, t1, t2, parse);
    assert Semicolon !in t1 + t2;
    PlainAppend(t1, t2);
    assert name + [Semicolon] + t1 + t2 == name + [Semicolon] + (t1 + t2);
    OneLineChunk(name, t1 + t2, parse);
  }

  /** The two fragments of a reading cut inside its value. */
  lemma CutValueFragments(name: seq<Byte>, t1: seq<Byte>, t2: seq<Byte>, parse: seq<Byte> -> Option<Value>)
    requires Semicolon !in name && Newline !in name
    requires |t1| > 0 && Semicolon !in t1 && Plain(t1)
    requires Semicolon !in t2 && Plain(t2)
    requires parse(t1).Some?
    ensures AggregateLines(AllLines([name + [Semicolon] + t1, t2 + [Newline]]), parse)
              == map[name := Single(parse(t1).value)]
  {
    var first := name + [Semicolon] + t1;
    assert AllLines([first, t2 + [Newline]]) == [first, t2] by {
      assert first[|first| - 1] == t1[|t1| - 1];
      assert Plain(first);
      ScanUnterminated(first);
      ScanOneLine(t2);
      AllLinesTwo(first, t2 + [Newline]);
    }
    ParseLineOf(name, t1, parse);
    FieldIsNoReading(t2, parse);
    AggregateTwo(first, t2, parse);
    FirstReading(map[], first, parse, name, parse(t1).value);
  }

  lemma PlainAppend(t1: seq<Byte>, t2: seq<Byte>)
    requires Plain(t1) && Plain(t2)
    ensures Plain(t1 + t2)
  {
    if |t2| == 0 {
      assert t1 + t2 == t1;
    } else {
      assert (t1 + t2)[|t1 + t2| - 1] == t2[|t2| - 1];
    }
  }

  // ---------------------------------------------------------------------
  // The pipeline as written.
  // ---------------------------------------------------------------------

  /** The pipeline as written: partials are merged with `MergeAsWritten`. */
  method RunAsWritten(chunks: seq<seq<Byte>>, parse: seq<Byte> -> Option<Value>) returns (result: Places)
    ensures result == KeptFirst(chunks, parse)
  {
    result := map[];
    var i := 0;
    while i < |chunks|
      invariant i <= |chunks|
      invariant result == KeptFirst(chunks[..i], parse)
    {
      var places := AggregateChunk(chunks[i], parse);
      result := MergeAsWritten(result, places);
      assert chunks[..i + 1][..i] == chunks[..i];
      i := i + 1;
    }
    assert chunks[..i] == chunks;
  }

  lemma KeptFirstLast(chunks: seq<seq<Byte>>, chunk: seq<Byte>, parse: seq<Byte> -> Option<Value>)
    ensures KeptFirst(chunks + [chunk], parse) == KeepExisting(KeptFirst(chunks, parse), ChunkSummary(chunk, parse))
  {
    assert (chunks + [chunk])[..|chunks|] == chunks;
  }

  /**
   As written, a station's final summary is the summary from the first
   chunk whose partial holds the station; later chunks add nothing to it.
   */
  lemma {:induction false} KeptFirstIsFirstPartial(chunks: seq<seq<Byte>>, parse: seq<Byte> -> Option<Value>, k: Name, j: nat)
    requires j < |chunks| && k in ChunkSummary(chunks[j], parse)
    requires forall i :: 0 <= i < j ==> k !in ChunkSummary(chunks[i], parse)
    ensures k in KeptFirst(chunks, parse)
    ensures KeptFirst(chunks, parse)[k] == ChunkSummary(chunks[j], parse)[k]
    decreases |chunks|
  {
    var prefix := chunks[..|chunks| - 1];
    if j < |chunks| - 1 {
      KeptFirstIsFirstPartial(prefix, parse, k, j);
    } else {
      KeptFirstAbsent(prefix, parse, k);
    }
  }

  /** A station that no partial holds is not in the result as written. */
  lemma {:induction false} KeptFirstAbsent(chunks: seq<seq<Byte>>, parse: seq<Byte> -> Option<Value>, k: Name)
    requires forall i :: 0 <= i < |chunks| ==> k !in ChunkSummary(chunks[i], parse)
    ensures k !in KeptFirst(chunks, parse)
    decreases |chunks|
  {
    if chunks != [] {
      KeptFirstAbsent(chunks[..|chunks| - 1], parse, k);
    }
  }

  /**
   The source defect, shown on a chunk sent twice: as written, a station's
   count is that of one copy, while the lines hold twice as many readings.
   */
  lemma AsWrittenDropsRepeatedChunk(chunk: seq<Byte>, parse: seq<Byte> -> Option<Value>, k: Name)
    requires k in ChunkSummary(chunk, parse)
    ensures k in KeptFirst([chunk, chunk], parse)
    ensures KeptFirst([chunk, chunk], parse)[k].count == ChunkSummary(chunk, parse)[k].count
    ensures k in AggregateLines(AllLines([chunk, chunk]), parse)
    ensures AggregateLines(AllLines([chunk, chunk]), parse)[k].count == 2 * ChunkSummary(chunk, parse)[k].count
  {
    var s := ChunkSummary(chunk, parse);
    var lines := ScanLines(chunk);
    assert KeptFirst([chunk, chunk], parse) == KeepExisting(s, s) by {
      KeptFirstLast([], chunk, parse);
      KeptFirstLast([chunk], chunk, parse);
      assert [] + [chunk] == [chunk];
      assert [chunk] + [chunk] == [chunk, chunk];
      assert KeepExisting(map[], s) == s;
    }
    assert AllLines([chunk, chunk]) == lines + lines by {
      AllLinesTwo(chunk, chunk);
    }
    assert k in AggregateLines(lines + lines, parse)
           && AggregateLines(lines + lines, parse)[k].count == 2 * s[k].count by {
      AggregateAppend(lines, lines, parse);
      MergedCounts(s, s, k);
    }
  }
}
