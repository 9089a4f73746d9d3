/** The loop of `parse_log_file`: every line is searched, the groups of each
    matching line are appended, and lines that do not match are skipped. The
    file itself is a sequence of lines here. */
module LogFile {
  import opened Wrappers
  import opened LogPattern

  /** What the loop has appended after reading `lines`: at most one record
      per line, each with the shapes of the pattern's groups. */
  function Extracted(lines: seq<string>): (r: seq<FieldMap>)
    ensures |r| <= |lines|
    ensures forall f :: f in r ==> WellShaped(f)
  {
    if lines == [] then []
    else
      var last := lines[|lines| - 1];
      Extracted(lines[..|lines| - 1]) + (match MatchLine(last) case Some(f) => [f] case None => [])
  }

  /** The positions of the matching lines, in order. */
  function MatchingLines(lines: seq<string>): seq<nat> {
    if lines == [] then []
    else
      var k := |lines| - 1;
      MatchingLines(lines[..k]) + (if MatchLine(lines[k]).Some? then [k] else [])
  }

  /** `parse_log_file` once the file is open. */
  method ParseLogFile(lines: seq<string>) returns (parsed: seq<FieldMap>)
    ensures parsed == Extracted(lines)
  {
    parsed := [];
    for i := 0 to |lines|
      invariant parsed == Extracted(lines[..i])
    {
      assert lines[..i + 1][..i] == lines[..i];
      var found := MatchLine(lines[i]);
      if found.Some? {
        parsed := parsed + [found.value];
      }
    }
    assert lines[..|lines|] == lines;
  }

  /** One result per matching line, never more results than lines. */
  lemma {:induction false} ExtractedLength(lines: seq<string>)
    ensures |Extracted(lines)| == |MatchingLines(lines)| <= |lines|
  {
    if lines != [] {
      ExtractedLength(lines[..|lines| - 1]);
    }
  }

  /** The matching lines are listed in input order, each once, and each is a
      line of the input. */
  lemma {:induction false} MatchingLinesAscending(lines: seq<string>)
    ensures forall i :: 0 <= i < |MatchingLines(lines)| ==> MatchingLines(lines)[i] < |lines|
    ensures forall i, j :: 0 <= i < j < |MatchingLines(lines)| ==> MatchingLines(lines)[i] < MatchingLines(lines)[j]
  {
    if lines != [] {
      MatchingLinesAscending(lines[..|lines| - 1]);
    }
  }

  /** Element i of the result holds the groups of the i-th matching line. */
  lemma {:induction false} ExtractedKeepsMatchingLines(lines: seq<string>)
    ensures |Extracted(lines)| == |MatchingLines(lines)|
    ensures forall i :: 0 <= i < |MatchingLines(lines)| ==>
              && MatchingLines(lines)[i] < |lines|
              && MatchLine(lines[MatchingLines(lines)[i]]) == Some(Extracted(lines)[i])
  {
    ExtractedLength(lines);
    MatchingLinesAscending(lines);
    if lines != [] {
      var k := |lines| - 1;
      var front := lines[..k];
      ExtractedKeepsMatchingLines(front);
      ExtractedLength(front);
      MatchingLinesAscending(front);
      forall i | 0 <= i < |MatchingLines(front)|
        ensures lines[MatchingLines(front)[i]] == front[MatchingLines(front)[i]]
      {
      }
    }
  }

  /** Every line that matches is listed: no matching line is dropped. */
  lemma {:induction false} MatchingLinesComplete(lines: seq<string>, k: nat)
    requires k < |lines| && MatchLine(lines[k]).Some?
    ensures k in MatchingLines(lines)
  {
    var n := |lines| - 1;
    if k < n {
      assert lines[..n][k] == lines[k];
      MatchingLinesComplete(lines[..n], k);
    }
  }

  /** A line that does not match is skipped and the lines after it are still
      processed: the result for two stretches of the file is the concatenation
      of the results for each. */
  lemma {:induction false} ExtractedConcat(a: seq<string>, b: seq<string>)
    ensures Extracted(a + b) == Extracted(a) + Extracted(b)
    decreases |b|
  {
    if b == [] {
      assert a + b == a;
    } else {
      var k := |b| - 1;
      assert (a + b)[..|a + b| - 1] == a + b[..k];
      ExtractedConcat(a, b[..k]);
    }
  }

  /** A file of lines none of which matches yields nothing. */
  lemma {:induction false} NothingMatches(lines: seq<string>)
    requires forall k :: 0 <= k < |lines| ==> MatchLine(lines[k]).None?
    ensures Extracted(lines) == []
  {
    if lines != [] {
      NothingMatches(lines[..|lines| - 1]);
    }
  }
}
