/**
 The worker of main.go:84-124: one chunk of bytes in, one fresh `Places` map
 out. Every line with exactly one `;` whose second field parses is a reading
 of the station named by its first field; every other line is skipped.

 `parse` stands for `strconv.ParseFloat`: any function from a field's bytes to
 a value, or to `None` where ParseFloat reports an error.
 */
module Aggregate {
  import opened Summaries
  import opened Lines

  /** One reading: a station name and its value. */
  datatype Measurement = Measurement(name: Name, value: Value)

  /**
   The reading a line holds, if any (main.go:91-100): `None` unless the line
   splits on `;` into exactly two fields and the second one parses.
   */
  function ParseLine(line: seq<Byte>, parse: seq<Byte> -> Option<Value>): (m: Option<Measurement>)
    ensures m.Some? ==> multiset(line)[Semicolon] == 1
    ensures m.Some? ==> Semicolon !in m.value.name
    ensures m.Some? ==> |m.value.name| < |line|
                        && line == m.value.name + [Semicolon] + line[|m.value.name| + 1..]
                        && parse(line[|m.value.name| + 1..]) == Some(m.value.value)
  {
    SplitCount(line, Semicolon);
    SplitJoin(line, Semicolon);
    var parts := Split(line, Semicolon);
    if |parts| != 2 then None
    else
      match parse(parts[1])
      case None => None
      case Some(v) =>
        assert line == parts[0] + [Semicolon] + parts[1];
        assert line[|parts[0]| + 1..] == parts[1];
        Some(Measurement(parts[0], v))
  }

  /** Conversely, a name and a value text around one `;` are read as such. */
  lemma ParseLineOf(name: seq<Byte>, text: seq<Byte>, parse: seq<Byte> -> Option<Value>)
    requires Semicolon !in name && Semicolon !in text
    ensures parse(text).None? ==> ParseLine(name + [Semicolon] + text, parse) == None
    ensures parse(text).Some? ==>
              ParseLine(name + [Semicolon] + text, parse) == Some(Measurement(name, parse(text).value))
  {
    SplitTwo(name, text, Semicolon);
  }

  /** A reading folded into a map (main.go:102-121). */
  function Accumulate(places: Places, m: Measurement): (r: Places)
    ensures r.Keys == places.Keys + {m.name}
    ensures forall k :: k in places && k != m.name ==> r[k] == places[k]
  {
    if m.name in places then places[m.name := Add(places[m.name], m.value)]
    else places[m.name := Single(m.value)]
  }

  /**
   One line's effect on the map (main.go:91-121): a line that is no reading
   leaves it as it was; a reading adds one to its station's count, within
   whose bounds its value then lies, and touches no other station.
   */
  function Step(places: Places, line: seq<Byte>, parse: seq<Byte> -> Option<Value>): (r: Places)
    ensures ParseLine(line, parse).None? ==> r == places
    ensures ParseLine(line, parse).Some? ==>
              var m := ParseLine(line, parse).value;
              && r.Keys == places.Keys + {m.name}
              && r[m.name].count == (if m.name in places then places[m.name].count else 0) + 1
              && r[m.name].min <= m.value <= r[m.name].max
              && forall k :: k in places && k != m.name ==> r[k] == places[k]
  {
    match ParseLine(line, parse)
    case None => places
    case Some(m) => Accumulate(places, m)
  }

  /** The map after the lines `lines`, starting from an empty one: every
      station counts at least one reading and no more readings than there
      are lines. */
  function AggregateLines(lines: seq<seq<Byte>>, parse: seq<Byte> -> Option<Value>): (r: Places)
    ensures forall k :: k in r ==> 1 <= r[k].count <= |lines|
  {
    if lines == [] then map[]
    else Step(AggregateLines(lines[..|lines| - 1], parse), lines[|lines| - 1], parse)
  }

  /** The partial map one chunk yields: each chunk starts from an empty map
      (main.go:84), so it depends on that chunk's bytes alone. */
  function ChunkSummary(chunk: seq<Byte>, parse: seq<Byte> -> Option<Value>): Places
  {
    AggregateLines(ScanLines(chunk), parse)
  }

  /** The values of the readings of station `name` among `lines`, in order. */
  function ValuesOf(lines: seq<seq<Byte>>, parse: seq<Byte> -> Option<Value>, name: Name): seq<Value>
  {
    if lines == [] then []
    else
      var prev := ValuesOf(lines[..|lines| - 1], parse, name);
      match ParseLine(lines[|lines| - 1], parse)
      case Some(m) => if m.name == name then prev + [m.value] else prev
      case None => prev
  }

  // ---------------------------------------------------------------------
  // What one more line does.
  // ---------------------------------------------------------------------

  lemma AggregateLast(lines: seq<seq<Byte>>, line: seq<Byte>, parse: seq<Byte> -> Option<Value>)
    ensures AggregateLines(lines + [line], parse) == Step(AggregateLines(lines, parse), line, parse)
  {
    assert (lines + [line])[..|lines|] == lines;
  }

  /** A line's effect spelled out on its fields, as the worker's loop reads them. */
  lemma StepOnFields(places: Places, line: seq<Byte>, parse: seq<Byte> -> Option<Value>)
    ensures var parts := Split(line, Semicolon);
            Step(places, line, parse) ==
              if |parts| == 2 && parse(parts[1]).Some? then
                Accumulate(places, Measurement(parts[0], parse(parts[1]).value))
              else places
  {
  }

  /** A line that is not a reading leaves the map as it was. */
  lemma SkippedLine(places: Places, line: seq<Byte>, parse: seq<Byte> -> Option<Value>)
    requires ParseLine(line, parse) == None
    ensures Step(places, line, parse) == places
  {
  }

  /** A line holding a reading folds that reading in. */
  lemma StepReading(places: Places, line: seq<Byte>, parse: seq<Byte> -> Option<Value>, m: Measurement)
    requires ParseLine(line, parse) == Some(m)
    ensures Step(places, line, parse) == Accumulate(places, m)
  {
  }

  /** A station's first reading inserts `{v, v, v, 1}` and changes nothing else. */
  lemma FirstReading(places: Places, line: seq<Byte>, parse: seq<Byte> -> Option<Value>, name: Name, v: Value)
    requires ParseLine(line, parse) == Some(Measurement(name, v))
    requires name !in places
    ensures Step(places, line, parse) == places[name := Summary(v, v, v, 1)]
  {
    StepReading(places, line, parse, Measurement(name, v));
  }

  /** A later reading updates min, max, sum and count of its own station and
      changes nothing else. */
  lemma LaterReading(places: Places, line: seq<Byte>, parse: seq<Byte> -> Option<Value>, name: Name, v: Value)
    requires ParseLine(line, parse) == Some(Measurement(name, v))
    requires name in places
    ensures var s := places[name];
            Step(places, line, parse) ==
              places[name := Summary(if s.min <= v then s.min else v,
                                     if s.max >= v then s.max else v,
                                     s.sum + v, s.count + 1)]
  {
    StepReading(places, line, parse, Measurement(name, v));
    var s := places[name];
    assert Add(s, v) == Summary(if s.min <= v then s.min else v,
                                if s.max >= v then s.max else v,
                                s.sum + v, s.count + 1);
  }

  // ---------------------------------------------------------------------
  // The whole map against the reference definition.
  // ---------------------------------------------------------------------

  /**
   A station is in the map exactly when some line is a reading of it, and its
   summary is then the summary of its readings: `count` readings, their sum,
   their least and their greatest value.
   */
  lemma {:induction false} AggregateMatchesValues(lines: seq<seq<Byte>>, parse: seq<Byte> -> Option<Value>, name: Name)
    ensures name in AggregateLines(lines, parse) <==> |ValuesOf(lines, parse, name)| > 0
    ensures name in AggregateLines(lines, parse) ==>
              AggregateLines(lines, parse)[name] == Summarize(ValuesOf(lines, parse, name))
    decreases |lines|
  {
    if lines != [] {
      var prefix := lines[..|lines| - 1];
      AggregateMatchesValues(prefix, parse, name);
      var vs := ValuesOf(prefix, parse, name);
      match ParseLine(lines[|lines| - 1], parse)
      case None =>
      case Some(m) =>
        if m.name == name {
          if |vs| > 0 {
            AddExtends(vs, m.value);
          }
        }
    }
  }

  /** Every entry of an aggregated map is well formed. */
  lemma AggregateWellFormed(lines: seq<seq<Byte>>, parse: seq<Byte> -> Option<Value>)
    ensures forall k :: k in AggregateLines(lines, parse) ==> WellFormed(AggregateLines(lines, parse)[k])
  {
    forall k | k in AggregateLines(lines, parse)
      ensures WellFormed(AggregateLines(lines, parse)[k])
    {
      AggregateMatchesValues(lines, parse, k);
      SummarizeWellFormed(ValuesOf(lines, parse, k));
    }
  }

  lemma {:induction false} ReadingInValues(lines: seq<seq<Byte>>, parse: seq<Byte> -> Option<Value>, i: nat)
    requires i < |lines| && ParseLine(lines[i], parse).Some?
    ensures var m := ParseLine(lines[i], parse).value;
            m.value in ValuesOf(lines, parse, m.name)
    decreases |lines|
  {
    var m := ParseLine(lines[i], parse).value;
    if i < |lines| - 1 {
      ReadingInValues(lines[..|lines| - 1], parse, i);
    }
  }

  /** Every reading of a station lies between its summary's min and max. */
  lemma ReadingWithinBounds(lines: seq<seq<Byte>>, parse: seq<Byte> -> Option<Value>, i: nat)
    requires i < |lines| && ParseLine(lines[i], parse).Some?
    ensures var m := ParseLine(lines[i], parse).value;
            && m.name in AggregateLines(lines, parse)
            && AggregateLines(lines, parse)[m.name].min <= m.value <= AggregateLines(lines, parse)[m.name].max
  {
    var m := ParseLine(lines[i], parse).value;
    var vs := ValuesOf(lines, parse, m.name);
    ReadingInValues(lines, parse, i);
    AggregateMatchesValues(lines, parse, m.name);
    SummarizeWellFormed(vs);
  }

  /** The readings of `a + b` are those of `a` followed by those of `b`. */
  lemma {:induction false} ValuesAppend(a: seq<seq<Byte>>, b: seq<seq<Byte>>, parse: seq<Byte> -> Option<Value>, name: Name)
    ensures ValuesOf(a + b, parse, name) == ValuesOf(a, parse, name) + ValuesOf(b, parse, name)
    decreases |b|
  {
    if b == [] {
      assert a + b == a;
    } else {
      var b' := b[..|b| - 1];
      assert (a + b)[..|a + b| - 1] == a + b';
      ValuesAppend(a, b', parse, name);
    }
  }

  // ---------------------------------------------------------------------
  // The worker's loop.
  // ---------------------------------------------------------------------

  /**
   The worker's treatment of one chunk (main.go:84-122): scan it line by line
   and fold every reading into a fresh map.
   */
  method AggregateChunk(chunk: seq<Byte>, parse: seq<Byte> -> Option<Value>) returns (places: Places)
    ensures places == ChunkSummary(chunk, parse)
    ensures forall k :: k in places ==> WellFormed(places[k])
  {
    places := map[];
    var rest := chunk;
    ghost var scanned: seq<seq<Byte>> := [];
    while |rest| > 0
      invariant ScanLines(chunk) == scanned + ScanLines(rest)
      invariant places == AggregateLines(scanned, parse)
      decreases |rest|
    {
      // scanner.Scan(): the next line, without its newline and one CR
      ghost var left := rest;
      var line;
      line, rest := NextLine(rest);
      assert scanned + ScanLines(left) == (scanned + [line]) + ScanLines(rest);
      ghost var before := places;
      var parts := Split(line, Semicolon);
      if |parts| == 2 {
        var name := parts[0];
        var temp := parse(parts[1]);
        if temp.Some? {
          if name in places {
            places := places[name := Add(places[name], temp.value)];
          } else {
            places := places[name := Single(temp.value)];
          }
        }
      }
      StepOnFields(before, line, parse);
      assert places == Step(before, line, parse);
      AggregateLast(scanned, line, parse);
      scanned := scanned + [line];
    }
    assert ScanLines(rest) == [];
    assert scanned + [] == scanned;
    AggregateWellFormed(scanned, parse);
  }
}
