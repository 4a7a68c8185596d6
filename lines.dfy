/**
 Line and field splitting as the worker of main.go:86-91 uses it: the lines
 that `bufio.Scanner` with its default `ScanLines` split function yields for a
 chunk, and the fields `bytes.Split(line, []byte{';'})` yields for a line.
 */
module Lines {
  import opened Summaries

  const Newline: Byte := 10
  const CarriageReturn: Byte := 13
  const Semicolon: Byte := 59

  /** Position of the first `b` in `s` at or after `from`, or `|s|` when
      there is none. */
  function IndexFrom(s: seq<Byte>, b: Byte, from: nat): (i: nat)
    requires from <= |s|
    ensures from <= i <= |s|
    ensures i < |s| ==> s[i] == b
    decreases |s| - from
  {
    if from == |s| then |s|
    else if s[from] == b then from
    else IndexFrom(s, b, from + 1)
  }

  /** Position of the first `b` in `s`, or `|s|` when `s` holds none. */
  function IndexOf(s: seq<Byte>, b: Byte): (i: nat)
    ensures i <= |s|
    ensures i < |s| ==> s[i] == b
  {
    IndexFrom(s, b, 0)
  }

  lemma {:induction false} IndexFromFirst(s: seq<Byte>, b: Byte, from: nat)
    requires from <= |s|
    ensures forall j :: from <= j < IndexFrom(s, b, from) ==> s[j] != b
    decreases |s| - from
  {
    if from < |s| && s[from] != b {
      IndexFromFirst(s, b, from + 1);
    }
  }

  /** No `b` comes before the position `IndexOf` finds. */
  lemma IndexOfFirst(s: seq<Byte>, b: Byte)
    ensures forall j :: 0 <= j < IndexOf(s, b) ==> s[j] != b
  {
    IndexFromFirst(s, b, 0);
  }

  /** A line's single trailing carriage return, dropped. */
  function DropCR(s: seq<Byte>): (r: seq<Byte>)
    ensures |r| <= |s| && r == s[..|r|]
    ensures |r| < |s| <==> |s| > 0 && s[|s| - 1] == CarriageReturn
    ensures |s| - |r| <= 1
  {
    if |s| > 0 && s[|s| - 1] == CarriageReturn then s[..|s| - 1] else s
  }

  /**
   The lines of `data`: split after every newline, one trailing carriage
   return dropped from each, and a last fragment without a newline is a line
   of its own. An empty remainder yields no line.
   */
  function ScanLines(data: seq<Byte>): (lines: seq<seq<Byte>>)
    ensures |lines| <= |data|
    decreases |data|
  {
    if |data| == 0 then []
    else
      var i := IndexOf(data, Newline);
      if i < |data| then [DropCR(data[..i])] + ScanLines(data[i + 1..])
      else [DropCR(data)]
  }

  /** No line `ScanLines` yields holds a newline. */
  lemma {:induction false} ScanLinesNoNewline(data: seq<Byte>)
    ensures forall k :: 0 <= k < |ScanLines(data)| ==> Newline !in ScanLines(data)[k]
    decreases |data|
  {
    if |data| > 0 {
      var i := IndexOf(data, Newline);
      IndexOfFirst(data, Newline);
      if i < |data| {
        ScanLinesNoNewline(data[i + 1..]);
        assert Newline !in data[..i];
        assert Newline !in DropCR(data[..i]);
      } else {
        assert Newline !in data;
        assert Newline !in DropCR(data);
      }
    }
  }

  /** The bytes of `lines`, each followed by a newline. */
  function Terminated(lines: seq<seq<Byte>>): seq<Byte>
  {
    if lines == [] then [] else lines[0] + [Newline] + Terminated(lines[1..])
  }

  /** A line `ScanLines` can give back unchanged. */
  predicate Plain(line: seq<Byte>)
  {
    Newline !in line && (|line| == 0 || line[|line| - 1] != CarriageReturn)
  }

  lemma IndexOfAfter(a: seq<Byte>, b: Byte, rest: seq<Byte>)
    requires b !in a
    ensures IndexOf(a + [b] + rest, b) == |a|
  {
    var s := a + [b] + rest;
    IndexOfFirst(s, b);
    assert s[|a|] == b;
    assert forall j :: 0 <= j < |a| ==> s[j] == a[j];
  }

  /** Terminating lines and scanning them again gives the same lines back. */
  lemma {:induction false} ScanTerminated(lines: seq<seq<Byte>>)
    requires forall k :: 0 <= k < |lines| ==> Plain(lines[k])
    ensures ScanLines(Terminated(lines)) == lines
    decreases |lines|
  {
    if lines != [] {
      var data := Terminated(lines);
      var rest := Terminated(lines[1..]);
      assert data == lines[0] + [Newline] + rest;
      IndexOfAfter(lines[0], Newline, rest);
      assert data[..|lines[0]|] == lines[0];
      assert data[|lines[0]| + 1..] == rest;
      ScanTerminated(lines[1..]);
    }
  }

  /** A last line without a newline is still a line. */
  lemma ScanUnterminated(last: seq<Byte>)
    requires Plain(last) && |last| > 0
    ensures ScanLines(last) == [last]
  {
  }

  /** A line ending in CR LF loses exactly one carriage return, even when
      the line itself ends with another one. */
  lemma ScanCRLF(line: seq<Byte>)
    requires Newline !in line
    ensures ScanLines(line + [CarriageReturn, Newline]) == [line]
  {
    var data := line + [CarriageReturn, Newline];
    assert data == (line + [CarriageReturn]) + [Newline] + [];
    IndexOfAfter(line + [CarriageReturn], Newline, []);
    assert data[..|line| + 1] == line + [CarriageReturn];
    assert data[|line| + 2..] == [];
  }

  /** The first newline of `a` is also the first newline of `a + b`. */
  lemma IndexOfPrefix(a: seq<Byte>, b: seq<Byte>, sep: Byte)
    requires IndexOf(a, sep) < |a|
    ensures IndexOf(a + b, sep) == IndexOf(a, sep)
  {
    var i := IndexOf(a, sep);
    var s := a + b;
    IndexOfFirst(a, sep);
    IndexOfFirst(s, sep);
    assert s[i] == sep;
    assert forall j :: 0 <= j < i ==> s[j] == a[j];
  }

  /** `ScanLines` cutting off its first line at the newline at `i`. */
  lemma ScanFirst(data: seq<Byte>, i: nat)
    requires i < |data| && IndexOf(data, Newline) == i
    ensures ScanLines(data) == [DropCR(data[..i])] + ScanLines(data[i + 1..])
  {
  }

  /** The first line of `a + b` is the first line of `a` when `a` holds a
      newline. */
  lemma ScanAppendHead(a: seq<Byte>, b: seq<Byte>, i: nat)
    requires i < |a| && IndexOf(a, Newline) == i
    ensures ScanLines(a) == [DropCR(a[..i])] + ScanLines(a[i + 1..])
    ensures ScanLines(a + b) == [DropCR(a[..i])] + ScanLines(a[i + 1..] + b)
  {
    ScanFirst(a, i);
    var s := a + b;
    IndexOfPrefix(a, b, Newline);
    assert s[..i] == a[..i];
    assert s[i + 1..] == a[i + 1..] + b;
    ScanFirst(s, i);
  }

  /** Scanning `a + b` when `a` ends with a newline scans `a` and `b` apart. */
  lemma {:induction false} ScanAppend(a: seq<Byte>, b: seq<Byte>)
    requires |a| == 0 || a[|a| - 1] == Newline
    ensures ScanLines(a + b) == ScanLines(a) + ScanLines(b)
    decreases |a|
  {
    if |a| == 0 {
      assert a + b == b;
    } else {
      var i := IndexOf(a, Newline);
      IndexOfFirst(a, Newline);
      var a' := a[i + 1..];
      ScanAppendHead(a, b, i);
      assert |a'| == 0 || a'[|a'| - 1] == Newline;
      ScanAppend(a', b);
      ConsAppend(DropCR(a[..i]), ScanLines(a'), ScanLines(b));
    }
  }

  lemma ConsAppend<T>(x: T, p: seq<T>, q: seq<T>)
    ensures [x] + (p + q) == ([x] + p) + q
  {
  }

  /**
   One call of `scanner.Scan()` on what is left of a chunk: the next line and
   the bytes after it.
   */
  method NextLine(rest: seq<Byte>) returns (line: seq<Byte>, after: seq<Byte>)
    requires |rest| > 0
    ensures |after| < |rest|
    ensures Newline !in line
    ensures ScanLines(rest) == [line] + ScanLines(after)
  {
    var i := IndexOf(rest, Newline);
    IndexOfFirst(rest, Newline);
    if i < |rest| {
      line := DropCR(rest[..i]);
      after := rest[i + 1..];
    } else {
      line := DropCR(rest);
      after := [];
    }
  }

  /** The fields of `s` between the occurrences of `sep`. */
  function Split(s: seq<Byte>, sep: Byte): (parts: seq<seq<Byte>>)
    ensures |parts| >= 1
    ensures forall k :: 0 <= k < |parts| ==> sep !in parts[k]
    decreases |s|
  {
    IndexOfFirst(s, sep);
    var i := IndexOf(s, sep);
    if i == |s| then [s] else [s[..i]] + Split(s[i + 1..], sep)
  }

  /** Fields joined back with the separator between them. */
  function Join(parts: seq<seq<Byte>>, sep: Byte): seq<Byte>
    requires |parts| >= 1
  {
    if |parts| == 1 then parts[0] else parts[0] + [sep] + Join(parts[1..], sep)
  }

  /** Splitting loses nothing: joining the fields restores the line. */
  lemma {:induction false} SplitJoin(s: seq<Byte>, sep: Byte)
    ensures Join(Split(s, sep), sep) == s
    decreases |s|
  {
    var i := IndexOf(s, sep);
    if i < |s| {
      var parts := Split(s[i + 1..], sep);
      assert Split(s, sep) == [s[..i]] + parts;
      assert ([s[..i]] + parts)[1..] == parts;
      assert Join([s[..i]] + parts, sep) == s[..i] + [sep] + Join(parts, sep);
      SplitJoin(s[i + 1..], sep);
      assert s == s[..i] + [sep] + s[i + 1..];
    }
  }

  /** There is one field more than there are separators. */
  lemma {:induction false} SplitCount(s: seq<Byte>, sep: Byte)
    ensures |Split(s, sep)| == multiset(s)[sep] + 1
    decreases |s|
  {
    var i := IndexOf(s, sep);
    IndexOfFirst(s, sep);
    if i == |s| {
      assert sep !in multiset(s);
    } else {
      SplitCount(s[i + 1..], sep);
      assert s == s[..i] + [sep] + s[i + 1..];
      assert sep !in multiset(s[..i]);
    }
  }

  /** A line of two fields is the two fields around its one separator. */
  lemma SplitTwo(name: seq<Byte>, text: seq<Byte>, sep: Byte)
    requires sep !in name && sep !in text
    ensures Split(name + [sep] + text, sep) == [name, text]
  {
    var s := name + [sep] + text;
    IndexOfAfter(name, sep, text);
    assert s[..|name|] == name;
    assert s[|name| + 1..] == text;
  }
}
