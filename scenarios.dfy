/**
 Small inputs worked through the model. Station names and value texts are
 left symbolic (any bytes without `;`, newline or a final carriage return);
 the values are tenths, so a parser that reads "10.0" as 100 fits.
 */
module Scenarios {
  import opened Summaries
  import opened Lines
  import opened Aggregate
  import opened Merge
  import opened Pipeline

  /** A field that can stand on either side of the `;` of a record line. */
  predicate Field(s: seq<Byte>)
  {
    Semicolon !in s && Plain(s)
  }

  function Line(name: seq<Byte>, text: seq<Byte>): seq<Byte>
  {
    name + [Semicolon] + text
  }

  lemma LineIsPlain(name: seq<Byte>, text: seq<Byte>)
    requires Field(name) && Field(text)
    ensures Plain(Line(name, text))
  {
    var line := Line(name, text);
    if |text| > 0 {
      assert line[|line| - 1] == text[|text| - 1];
    } else {
      assert line[|line| - 1] == Semicolon;
    }
  }

  /** The map after three lines, one step at a time. */
  lemma AggregateThree(l1: seq<Byte>, l2: seq<Byte>, l3: seq<Byte>, parse: seq<Byte> -> Option<Value>)
    ensures AggregateLines([l1, l2, l3], parse) == Step(Step(Step(map[], l1, parse), l2, parse), l3, parse)
  {
    AggregateTwo(l1, l2, parse);
    AggregateLast([l1, l2], l3, parse);
    assert [l1, l2] + [l3] == [l1, l2, l3];
  }

  lemma TerminatedTwo(l1: seq<Byte>, l2: seq<Byte>)
    ensures Terminated([l1, l2]) == l1 + [Newline] + l2 + [Newline]
  {
    assert [l1, l2][1..] == [l2];
    assert [l2][1..] == [];
    calc {
      Terminated([l1, l2]);
      l1 + [Newline] + Terminated([l2]);
      l1 + [Newline] + (l2 + [Newline] + Terminated([]));
    }
  }

  lemma TerminatedThree(l1: seq<Byte>, l2: seq<Byte>, l3: seq<Byte>)
    ensures Terminated([l1, l2, l3]) == l1 + [Newline] + l2 + [Newline] + l3 + [Newline]
  {
    assert [l1, l2, l3][1..] == [l2, l3];
    TerminatedTwo(l2, l3);
  }

  lemma ScanTwo(l1: seq<Byte>, l2: seq<Byte>)
    requires Plain(l1) && Plain(l2)
    ensures ScanLines(l1 + [Newline] + l2 + [Newline]) == [l1, l2]
  {
    TerminatedTwo(l1, l2);
    ScanTerminated([l1, l2]);
  }

  lemma ScanThree(l1: seq<Byte>, l2: seq<Byte>, l3: seq<Byte>)
    requires Plain(l1) && Plain(l2) && Plain(l3)
    ensures ScanLines(l1 + [Newline] + l2 + [Newline] + l3 + [Newline]) == [l1, l2, l3]
  {
    TerminatedThree(l1, l2, l3);
    ScanTerminated([l1, l2, l3]);
  }

  lemma TwoStationsLines(a: seq<Byte>, b: seq<Byte>, t10: seq<Byte>, t20: seq<Byte>, t30: seq<Byte>,
                         parse: seq<Byte> -> Option<Value>)
    requires Field(a) && Field(b) && a != b
    requires Field(t10) && Field(t20) && Field(t30)
    requires parse(t10) == Some(100) && parse(t20) == Some(200) && parse(t30) == Some(300)
    ensures AggregateLines([Line(a, t10), Line(b, t20), Line(a, t30)], parse)
            == map[a := Summary(100, 300, 400, 2), b := Summary(200, 200, 200, 1)]
  {
    var l1, l2, l3 := Line(a, t10), Line(b, t20), Line(a, t30);
    AggregateThree(l1, l2, l3, parse);
    ParseLineOf(a, t10, parse);
    ParseLineOf(b, t20, parse);
    ParseLineOf(a, t30, parse);
    TwoStationsSteps(a, b, l1, l2, l3, parse);
  }

  lemma TwoStationsFirstTwo(a: seq<Byte>, b: seq<Byte>, l1: seq<Byte>, l2: seq<Byte>,
                             parse: seq<Byte> -> Option<Value>)
    requires a != b
    requires ParseLine(l1, parse) == Some(Measurement(a, 100))
    requires ParseLine(l2, parse) == Some(Measurement(b, 200))
    ensures Step(Step(map[], l1, parse), l2, parse)
            == map[a := Summary(100, 100, 100, 1), b := Summary(200, 200, 200, 1)]
  {
    var m0: Places := map[];
    FirstReading(m0, l1, parse, a, 100);
    FirstReading(m0[a := Summary(100, 100, 100, 1)], l2, parse, b, 200);
  }

  lemma TwoStationsSteps(a: seq<Byte>, b: seq<Byte>, l1: seq<Byte>, l2: seq<Byte>, l3: seq<Byte>,
                         parse: seq<Byte> -> Option<Value>)
    requires a != b
    requires ParseLine(l1, parse) == Some(Measurement(a, 100))
    requires ParseLine(l2, parse) == Some(Measurement(b, 200))
    requires ParseLine(l3, parse) == Some(Measurement(a, 300))
    ensures Step(Step(Step(map[], l1, parse), l2, parse), l3, parse)
            == map[a := Summary(100, 300, 400, 2), b := Summary(200, 200, 200, 1)]
  {
    var m2 := map[a := Summary(100, 100, 100, 1), b := Summary(200, 200, 200, 1)];
    TwoStationsFirstTwo(a, b, l1, l2, parse);
    assert Step(m2, l3, parse) == m2[a := Summary(100, 300, 400, 2)] by {
      LaterReading(m2, l3, parse, a, 300);
    }
    Overwrite(a, b, Summary(100, 100, 100, 1), Summary(200, 200, 200, 1), Summary(100, 300, 400, 2));
  }

  lemma Overwrite<K, V>(a: K, b: K, x: V, y: V, z: V)
    requires a != b
    ensures map[a := x, b := y][a := z] == map[a := z, b := y]
  {
  }

  /** "A;10.0\nB;20.0\nA;30.0\n" gives A: {10.0, 30.0, 40.0, 2} and
      B: {20.0, 20.0, 20.0, 1}. */
  lemma TwoStations(a: seq<Byte>, b: seq<Byte>, t10: seq<Byte>, t20: seq<Byte>, t30: seq<Byte>,
                    parse: seq<Byte> -> Option<Value>)
    requires Field(a) && Field(b) && a != b
    requires Field(t10) && Field(t20) && Field(t30)
    requires parse(t10) == Some(100) && parse(t20) == Some(200) && parse(t30) == Some(300)
    ensures ChunkSummary(Line(a, t10) + [Newline] + Line(b, t20) + [Newline] + Line(a, t30) + [Newline], parse)
            == map[a := Summary(100, 300, 400, 2), b := Summary(200, 200, 200, 1)]
  {
    LineIsPlain(a, t10);
    LineIsPlain(b, t20);
    LineIsPlain(a, t30);
    ScanThree(Line(a, t10), Line(b, t20), Line(a, t30));
    TwoStationsLines(a, b, t10, t20, t30, parse);
  }

  lemma MalformedSteps(a: seq<Byte>, l1: seq<Byte>, bad: seq<Byte>, l3: seq<Byte>,
                        parse: seq<Byte> -> Option<Value>)
    requires ParseLine(l1, parse) == Some(Measurement(a, 100))
    requires ParseLine(bad, parse) == None
    requires ParseLine(l3, parse) == Some(Measurement(a, 200))
    ensures Step(Step(Step(map[], l1, parse), bad, parse), l3, parse) == map[a := Summary(100, 200, 300, 2)]
  {
    var m0: Places := map[];
    var m1 := map[a := Summary(100, 100, 100, 1)];
    assert Step(m0, l1, parse) == m1 by {
      FirstReading(m0, l1, parse, a, 100);
    }
    assert Step(m1, bad, parse) == m1 by {
      SkippedLine(m1, bad, parse);
    }
    assert Step(m1, l3, parse) == m1[a := Summary(100, 200, 300, 2)] by {
      LaterReading(m1, l3, parse, a, 200);
    }
    Replace(a, Summary(100, 100, 100, 1), Summary(100, 200, 300, 2));
  }

  /** "A;10.0\nbadline\nA;20.0\n" gives A: {10.0, 20.0, 30.0, 2}; the line
      without a `;` contributes nothing. */
  lemma MalformedLineSkipped(a: seq<Byte>, bad: seq<Byte>, t10: seq<Byte>, t20: seq<Byte>,
                             parse: seq<Byte> -> Option<Value>)
    requires Field(a) && Field(bad) && Field(t10) && Field(t20)
    requires parse(t10) == Some(100) && parse(t20) == Some(200)
    ensures ChunkSummary(Line(a, t10) + [Newline] + bad + [Newline] + Line(a, t20) + [Newline], parse)
            == map[a := Summary(100, 200, 300, 2)]
  {
    var l1, l3 := Line(a, t10), Line(a, t20);
    assert ScanLines(l1 + [Newline] + bad + [Newline] + l3 + [Newline]) == [l1, bad, l3] by {
      LineIsPlain(a, t10);
      LineIsPlain(a, t20);
      ScanThree(l1, bad, l3);
    }
    assert ParseLine(bad, parse) == None by {
      SplitCount(bad, Semicolon);
      assert multiset(bad)[Semicolon] == 0;
    }
    ParseLineOf(a, t10, parse);
    ParseLineOf(a, t20, parse);
    AggregateThree(l1, bad, l3, parse);
    MalformedSteps(a, l1, bad, l3, parse);
  }

  lemma NegativeSteps(a: seq<Byte>, l1: seq<Byte>, l2: seq<Byte>, parse: seq<Byte> -> Option<Value>)
    requires ParseLine(l1, parse) == Some(Measurement(a, -50))
    requires ParseLine(l2, parse) == Some(Measurement(a, 50))
    ensures Step(Step(map[], l1, parse), l2, parse) == map[a := Summary(-50, 50, 0, 2)]
  {
    var m0: Places := map[];
    var m1 := map[a := Summary(-50, -50, -50, 1)];
    assert Step(m0, l1, parse) == m1 by {
      FirstReading(m0, l1, parse, a, -50);
    }
    assert Step(m1, l2, parse) == m1[a := Summary(-50, 50, 0, 2)] by {
      LaterReading(m1, l2, parse, a, 50);
    }
    Replace(a, Summary(-50, -50, -50, 1), Summary(-50, 50, 0, 2));
  }

  /** "A;-5.0\nA;5.0\n" gives A: {-5.0, 5.0, 0.0, 2}: negative values are
      ordinary readings. */
  lemma NegativeValues(a: seq<Byte>, tMinus5: seq<Byte>, t5: seq<Byte>, parse: seq<Byte> -> Option<Value>)
    requires Field(a) && Field(tMinus5) && Field(t5)
    requires parse(tMinus5) == Some(-50) && parse(t5) == Some(50)
    ensures ChunkSummary(Line(a, tMinus5) + [Newline] + Line(a, t5) + [Newline], parse)
            == map[a := Summary(-50, 50, 0, 2)]
  {
    var l1, l2 := Line(a, tMinus5), Line(a, t5);
    assert ScanLines(l1 + [Newline] + l2 + [Newline]) == [l1, l2] by {
      LineIsPlain(a, tMinus5);
      LineIsPlain(a, t5);
      ScanTwo(l1, l2);
    }
    ParseLineOf(a, tMinus5, parse);
    ParseLineOf(a, t5, parse);
    AggregateTwo(l1, l2, parse);
    NegativeSteps(a, l1, l2, parse);
  }

  lemma Replace<K, V>(a: K, x: V, y: V)
    ensures map[a := x][a := y] == map[a := y]
  {
  }

  /** An empty input gives an empty result, however it is cut into chunks. */
  lemma {:induction false} EmptyInput(chunks: seq<seq<Byte>>, parse: seq<Byte> -> Option<Value>)
    requires forall j :: 0 <= j < |chunks| ==> chunks[j] == []
    ensures AggregateLines(AllLines(chunks), parse) == map[]
    ensures KeptFirst(chunks, parse) == map[]
    decreases |chunks|
  {
    if chunks != [] {
      var prefix := chunks[..|chunks| - 1];
      assert forall j :: 0 <= j < |prefix| ==> prefix[j] == chunks[j];
      EmptyInput(prefix, parse);
      var last := chunks[|chunks| - 1];
      assert last == [];
      assert ScanLines(last) == [];
      assert AllLines(chunks) == AllLines(prefix) + ScanLines(last);
      assert AllLines(prefix) + [] == AllLines(prefix);
      assert ChunkSummary(last, parse) == map[];
    }
  }
}
