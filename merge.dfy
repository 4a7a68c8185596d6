/**
 The merger of main.go:131-157: it folds each partial map into the global
 `result` map, one station at a time.

 `result` stores `Summary` values, not pointers (main.go:129), so
 `result.Get` (main.go:135) hands back a copy. The code as written updates
 that copy (main.go:137-146) and never stores it, so a station already in
 `result` keeps the summary of the first partial that brought it.
 `MergeAsWritten` models that; `MergeCombined` is the merge the code
 evidently intends, which stores the combined copy back.
 */
module Merge {
  import opened Summaries

  // ---------------------------------------------------------------------
  // As written: a present station is left alone.
  // ---------------------------------------------------------------------

  /** The merge as written: every station absent from `result` is copied in
      verbatim; every station already present keeps its summary. */
  function KeepExisting(result: Places, partial: Places): (r: Places)
    ensures r.Keys == result.Keys + partial.Keys
    ensures forall k :: k in result ==> r[k] == result[k]
    ensures forall k :: k in partial && k !in result ==> r[k] == partial[k]
  {
    partial + result
  }

  /** The merger loop of main.go:133-155 as written. */
  method MergeAsWritten(result: Places, partial: Places) returns (r: Places)
    ensures r == KeepExisting(result, partial)
  {
    r := result;
    var pending := partial.Keys;
    while pending != {}
      invariant pending <= partial.Keys
      invariant r.Keys == result.Keys + (partial.Keys - pending)
      invariant forall k :: k in result ==> r[k] == result[k]
      invariant forall k :: k in partial.Keys - pending && k !in result ==> r[k] == partial[k]
      decreases pending
    {
      var station :| station in pending;
      var stationData := partial[station];
      if station in r {
        // result.Get returns a copy; the update below is never stored.
        var val := r[station];
        val := Combine(val, stationData);
      } else {
        r := r[station := stationData];
      }
      pending := pending - {station};
    }
  }

  /** Merging the same partial again changes nothing: every station it has
      is already present. */
  lemma KeepExistingIdempotent(result: Places, partial: Places)
    ensures KeepExisting(KeepExisting(result, partial), partial) == KeepExisting(result, partial)
  {
  }

  /** One merge step as written, for illustration: a station already
      present keeps its count, although the partial brings readings of it
      too. `AsWrittenDropsRepeatedChunk` and `KeptFirstIsFirstPartial` show
      the loss over a whole run. */
  lemma KeepExistingLosesCount(result: Places, partial: Places, k: Name)
    requires k in result && k in partial && partial[k].count >= 1
    ensures KeepExisting(result, partial)[k].count < result[k].count + partial[k].count
  {
  }

  // ---------------------------------------------------------------------
  // Corrected: the combined summary is stored back.
  // ---------------------------------------------------------------------

  /** The intended merge: stations present on both sides are combined with
      the rule of main.go:137-146, the others are copied. */
  function Merged(result: Places, partial: Places): Places
  {
    map k | k in result.Keys + partial.Keys ::
      if k in result && k in partial then Combine(result[k], partial[k])
      else if k in result then result[k]
      else partial[k]
  }

  /** The merger loop with the combined summary put back into `result`. */
  method MergeCombined(result: Places, partial: Places) returns (r: Places)
    ensures r == Merged(result, partial)
  {
    r := result;
    var pending := partial.Keys;
    while pending != {}
      invariant pending <= partial.Keys
      invariant r.Keys == result.Keys + (partial.Keys - pending)
      invariant forall k :: k in r ==>
                  r[k] == if k in result && k in partial && k !in pending then Combine(result[k], partial[k])
                          else if k in result then result[k]
                          else partial[k]
      decreases pending
    {
      var station :| station in pending;
      var stationData := partial[station];
      if station in r {
        var val := r[station];
        val := Combine(val, stationData);
        r := r[station := val];
      } else {
        r := r[station := stationData];
      }
      pending := pending - {station};
    }
  }

  /** The result's stations are those of both sides, and each count is the
      sum of the counts on both sides. */
  lemma MergedCounts(result: Places, partial: Places, k: Name)
    ensures k in Merged(result, partial) <==> k in result || k in partial
    ensures k in Merged(result, partial) ==>
              Merged(result, partial)[k].count ==
                (if k in result then result[k].count else 0) + (if k in partial then partial[k].count else 0)
  {
  }

  /** Arrival order does not matter: merging is commutative. */
  lemma MergedCommutative(a: Places, b: Places)
    ensures Merged(a, b) == Merged(b, a)
  {
    forall k | k in a && k in b ensures Combine(a[k], b[k]) == Combine(b[k], a[k]) {
      CombineCommutative(a[k], b[k]);
    }
  }

  /** Grouping does not matter: merging is associative. */
  lemma MergedAssociative(a: Places, b: Places, c: Places)
    ensures Merged(Merged(a, b), c) == Merged(a, Merged(b, c))
  {
    var l, r := Merged(Merged(a, b), c), Merged(a, Merged(b, c));
    assert l.Keys == r.Keys;
    forall k | k in l
      ensures l[k] == r[k]
    {
      if k in a && k in b && k in c {
        CombineAssociative(a[k], b[k], c[k]);
      }
    }
  }

  /** Merging keeps every entry well formed. */
  lemma MergedWellFormed(a: Places, b: Places)
    requires forall k :: k in a ==> WellFormed(a[k])
    requires forall k :: k in b ==> WellFormed(b[k])
    ensures forall k :: k in Merged(a, b) ==> WellFormed(Merged(a, b)[k])
  {
    forall k | k in a && k in b ensures WellFormed(Combine(a[k], b[k])) {
      CombineWellFormed(a[k], b[k]);
    }
  }

  /** Merging into an empty map copies the partial. */
  lemma MergedIntoEmpty(partial: Places)
    ensures Merged(map[], partial) == partial
  {
  }
}
