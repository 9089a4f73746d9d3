/** The compiled `log_pattern` of log_parser.py and its `search`:

      (?P<ip>[\d\.]+)\s-\s-\s\[(?P<timestamp>.*?)\]\s"(?P<method>\w+)\s(?P<path>.*?)\sHTTP/.*?"\s(?P<status>\d+)\s(?P<size>\d+)

    A match is described by the positions where its pieces end (`Spans`).
    `IsMatch` says which positions the pattern admits at all, and `TriedNoLater`
    is the order in which a backtracking engine tries them. `Search` is a
    hand-written scanner that tries the choice points in that same order. The
    lemmas show that it returns the first match in that order (the one Python's
    `re.search` returns), and that it finds one whenever any exists. */
module LogPattern {
  import opened Wrappers
  import opened Chars

  /** `match.groupdict()`: the six named groups (the `method` group is the
      field `verb`, since `method` is a Dafny keyword). */
  datatype FieldMap = FieldMap(ip: string, timestamp: string, verb: string, path: string, status: string, size: string)

  /** The positions of one match in the line:
        ip        = [start, ipEnd)           then `\s-\s-\s\[`
        timestamp = [ipEnd + 6, tsEnd)       then `\]\s"`
        method    = [tsEnd + 3, methodEnd)   then `\s`
        path      = [methodEnd + 1, pathEnd) then `\sHTTP/`
        version   = [pathEnd + 6, versionEnd) then `"\s`
        status    = [versionEnd + 2, statusEnd) then `\s`
        size      = [statusEnd + 1, sizeEnd) */
  datatype Spans = Spans(start: nat, ipEnd: nat, tsEnd: nat, methodEnd: nat, pathEnd: nat,
                         versionEnd: nat, statusEnd: nat, sizeEnd: nat)

  // ---------------------------------------------------------------------------
  // The pattern, piece by piece, from the right
  // ---------------------------------------------------------------------------

  /** `\s-\s-\s\[` at `a`. */
  predicate Separator(line: string, a: nat) {
    a + 6 <= |line| && IsSpace(line[a]) && line[a + 1] == '-' && IsSpace(line[a + 2])
    && line[a + 3] == '-' && IsSpace(line[a + 4]) && line[a + 5] == '['
  }

  /** `\sHTTP/` at `d`. */
  predicate Marker(line: string, d: nat) {
    d + 6 <= |line| && IsSpace(line[d]) && line[d + 1] == 'H' && line[d + 2] == 'T'
    && line[d + 3] == 'T' && line[d + 4] == 'P' && line[d + 5] == '/'
  }

  /** `"\s(?P<status>\d+)\s(?P<size>\d+)` from `versionEnd`. */
  ghost predicate TailAt(line: string, m: Spans) {
    && m.versionEnd + 2 < m.statusEnd && m.statusEnd + 1 < m.sizeEnd <= |line|
    && line[m.versionEnd] == '"' && IsSpace(line[m.versionEnd + 1])
    && AllIn(line, m.versionEnd + 2, m.statusEnd, Digit)
    && IsSpace(line[m.statusEnd])
    && AllIn(line, m.statusEnd + 1, m.sizeEnd, Digit)
  }

  /** `\sHTTP/.*?` and the tail, from `pathEnd`. */
  ghost predicate VersionAt(line: string, m: Spans) {
    && Marker(line, m.pathEnd)
    && m.pathEnd + 6 <= m.versionEnd <= |line|
    && AllIn(line, m.pathEnd + 6, m.versionEnd, AnyButNewline)
    && TailAt(line, m)
  }

  /** `(?P<path>.*?)` and the rest, from `methodEnd + 1`. */
  ghost predicate PathAt(line: string, m: Spans) {
    && m.methodEnd + 1 <= m.pathEnd <= |line|
    && AllIn(line, m.methodEnd + 1, m.pathEnd, AnyButNewline)
    && VersionAt(line, m)
  }

  /** `\]\s"(?P<method>\w+)\s` and the rest, from `tsEnd`. */
  ghost predicate MethodAt(line: string, m: Spans) {
    && m.tsEnd + 3 < m.methodEnd < |line|
    && line[m.tsEnd] == ']' && IsSpace(line[m.tsEnd + 1]) && line[m.tsEnd + 2] == '"'
    && AllIn(line, m.tsEnd + 3, m.methodEnd, Word)
    && IsSpace(line[m.methodEnd])
    && PathAt(line, m)
  }

  /** `(?P<timestamp>.*?)` and the rest, from `ipEnd + 6`. */
  ghost predicate TsAt(line: string, m: Spans) {
    && m.ipEnd + 6 <= m.tsEnd <= |line|
    && AllIn(line, m.ipEnd + 6, m.tsEnd, AnyButNewline)
    && MethodAt(line, m)
  }

  /** The whole pattern matches `line` with the groups at `m`. */
  ghost predicate IsMatch(line: string, m: Spans) {
    && m.start < m.ipEnd <= |line|
    && AllIn(line, m.start, m.ipEnd, IpChar)
    && Separator(line, m.ipEnd)
    && TsAt(line, m)
  }

  // ---------------------------------------------------------------------------
  // The backtracking order
  // ---------------------------------------------------------------------------

  /** Among matches that agree up to the path, the lazy version `.*?` is tried
      shortest first and the greedy size `\d+` longest first. */
  ghost predicate VersionNoLater(m: Spans, m': Spans) {
    m.versionEnd < m'.versionEnd || (m.versionEnd == m'.versionEnd && m.sizeEnd >= m'.sizeEnd)
  }

  /** The lazy path `.*?` is tried shortest first. */
  ghost predicate PathNoLater(m: Spans, m': Spans) {
    m.pathEnd < m'.pathEnd || (m.pathEnd == m'.pathEnd && VersionNoLater(m, m'))
  }

  /** The lazy timestamp `.*?` is tried shortest first. The greedy ip, method
      and status runs are followed by `\s`, so at most one length of each can
      succeed (`ForcedGroups`) and they add no choice to this order. */
  ghost predicate TriedNoLater(m: Spans, m': Spans) {
    m.tsEnd < m'.tsEnd || (m.tsEnd == m'.tsEnd && PathNoLater(m, m'))
  }

  /** The match `re.search` reports: the leftmost start, and at that start the
      first match in backtracking order. */
  ghost predicate IsFirstMatch(line: string, m: Spans) {
    && IsMatch(line, m)
    && forall m' :: IsMatch(line, m') ==>
         m.start < m'.start || (m.start == m'.start && TriedNoLater(m, m'))
  }

  ghost predicate AgreeToIp(m: Spans, p: Spans) {
    m.start == p.start && m.ipEnd == p.ipEnd
  }

  ghost predicate AgreeToTs(m: Spans, p: Spans) {
    AgreeToIp(m, p) && m.tsEnd == p.tsEnd
  }

  ghost predicate AgreeToMethod(m: Spans, p: Spans) {
    AgreeToTs(m, p) && m.methodEnd == p.methodEnd
  }

  ghost predicate AgreeToPath(m: Spans, p: Spans) {
    AgreeToMethod(m, p) && m.pathEnd == p.pathEnd
  }

  // ---------------------------------------------------------------------------
  // The scanner
  // ---------------------------------------------------------------------------

  /** `"\s(?P<status>\d+)\s(?P<size>\d+)` at `e`, both runs greedy. */
  function TryTail(line: string, p: Spans, e: nat): (r: Option<Spans>)
    requires e < |line| && line[e] == '"'
    ensures r.Some? ==> AgreeToPath(r.value, p) && r.value.versionEnd == e
  {
    if e + 1 < |line| && IsSpace(line[e + 1]) then
      var f := RunEnd(line, e + 2, Digit);
      if e + 2 < f < |line| && IsSpace(line[f]) then
        var g := RunEnd(line, f + 1, Digit);
        if f + 1 < g then Some(Spans(p.start, p.ipEnd, p.tsEnd, p.methodEnd, p.pathEnd, e, f, g))
        else None
      else None
    else None
  }

  /** The lazy version `.*?"` : try to close it at `e`, else take one more
      character (never a line feed). */
  function TryVersion(line: string, p: Spans, e: nat): (r: Option<Spans>)
    requires Marker(line, p.pathEnd)
    requires p.pathEnd + 6 <= e <= |line|
    requires AllIn(line, p.pathEnd + 6, e, AnyButNewline)
    ensures r.Some? ==> AgreeToPath(r.value, p) && e <= r.value.versionEnd
    decreases |line| - e
  {
    if e == |line| then None
    else
      var here := if line[e] == '"' then TryTail(line, p, e) else None;
      if here.Some? then here
      else if line[e] == '\n' then None
      else TryVersion(line, p, e + 1)
  }

  /** The lazy path `.*?\sHTTP/`: try to close it at `d`, else take one more
      character (never a line feed). */
  function TryPath(line: string, p: Spans, d: nat): (r: Option<Spans>)
    requires p.methodEnd + 1 <= d <= |line|
    requires AllIn(line, p.methodEnd + 1, d, AnyButNewline)
    ensures r.Some? ==> AgreeToMethod(r.value, p) && d <= r.value.pathEnd
    decreases |line| - d
  {
    if d == |line| then None
    else
      var here := if Marker(line, d) then TryVersion(line, p.(pathEnd := d), d + 6) else None;
      if here.Some? then here
      else if line[d] == '\n' then None
      else TryPath(line, p, d + 1)
  }

  /** `\]\s"(?P<method>\w+)\s` at `b`: where the method group ends. */
  function MethodEnd(line: string, b: nat): (c: Option<nat>)
    requires b < |line| && line[b] == ']'
    ensures c.Some? ==> b + 3 < c.value < |line| && IsSpace(line[b + 1]) && line[b + 2] == '"'
    ensures c.Some? ==> AllIn(line, b + 3, c.value, Word) && IsSpace(line[c.value])
  {
    if b + 3 < |line| && IsSpace(line[b + 1]) && line[b + 2] == '"' then
      var c := RunEnd(line, b + 3, Word);
      if b + 3 < c < |line| && IsSpace(line[c]) then Some(c) else None
    else None
  }

  /** The method with the timestamp closed at `p.tsEnd`, then the path. */
  function TryMethod(line: string, p: Spans): (r: Option<Spans>)
    requires p.tsEnd < |line| && line[p.tsEnd] == ']'
    ensures r.Some? ==> AgreeToTs(r.value, p)
  {
    match MethodEnd(line, p.tsEnd)
    case Some(c) => TryPath(line, p.(methodEnd := c), c + 1)
    case None => None
  }

  /** The lazy timestamp `.*?\]`: try to close it at `b`, else take one more
      character (never a line feed). */
  function TryTs(line: string, p: Spans, b: nat): (r: Option<Spans>)
    requires p.ipEnd + 6 <= b <= |line|
    requires AllIn(line, p.ipEnd + 6, b, AnyButNewline)
    ensures r.Some? ==> AgreeToIp(r.value, p) && b <= r.value.tsEnd
    decreases |line| - b
  {
    if b == |line| then None
    else
      var here := if line[b] == ']' then TryMethod(line, p.(tsEnd := b)) else None;
      if here.Some? then here
      else if line[b] == '\n' then None
      else TryTs(line, p, b + 1)
  }

  /** The pattern anchored at `s`: the greedy ip run, the separator, then the
      rest. The ip group is never empty, so nothing matches at the end. */
  function MatchAt(line: string, s: nat): (r: Option<Spans>)
    ensures r.Some? ==> r.value.start == s
  {
    match IpEnd(line, s)
    case Some(a) => TryTs(line, Spans(s, a, 0, 0, 0, 0, 0, 0), a + 6)
    case None => None
  }

  /** `(?P<ip>[\d\.]+)\s-\s-\s\[` at `s`: where the ip group ends. */
  function IpEnd(line: string, s: nat): (a: Option<nat>)
    ensures a.Some? ==> s < a.value <= |line| && AllIn(line, s, a.value, IpChar) && Separator(line, a.value)
  {
    if s >= |line| then None
    else
      var a := RunEnd(line, s, IpChar);
      if s < a && Separator(line, a) then Some(a) else None
  }

  /** The first position in `s..n` where `f` gives a result. */
  function FirstFrom<T>(f: nat -> Option<T>, s: nat, n: nat): (k: Option<nat>)
    ensures k.Some? ==> s <= k.value < n && f(k.value).Some?
    ensures k.Some? ==> forall j :: s <= j < k.value ==> f(j).None?
    ensures k.None? ==> forall j :: s <= j < n ==> f(j).None?
    decreases n - s
  {
    if s >= n then None
    else if f(s).Some? then Some(s)
    else FirstFrom(f, s + 1, n)
  }

  /** `log_pattern.search` from position `s` on: the match at the first start
      that matches. */
  function Search(line: string, s: nat): (r: Option<Spans>)
    ensures r.Some? ==> s <= r.value.start < |line| && MatchAt(line, r.value.start) == r
  {
    match FirstFrom(x => MatchAt(line, x), s, |line|)
    case Some(k) => MatchAt(line, k)
    case None => None
  }

  /** Every character of `s` belongs to `cls`. */
  ghost predicate AllOf(s: string, cls: Class) {
    forall i :: 0 <= i < |s| ==> InClass(s[i], cls)
  }

  /** The groups the pattern can capture: ip a non-empty run of digits and
      dots, method a non-empty run of word characters, status and size
      non-empty runs of digits; timestamp and path may be empty but never hold
      a line feed. */
  ghost predicate WellShaped(f: FieldMap) {
    && |f.ip| > 0 && AllOf(f.ip, IpChar)
    && AllOf(f.timestamp, AnyButNewline)
    && |f.verb| > 0 && AllOf(f.verb, Word)
    && AllOf(f.path, AnyButNewline)
    && |f.status| > 0 && AllOf(f.status, Digit)
    && |f.size| > 0 && AllOf(f.size, Digit)
  }

  /** A slice inside a run of `cls` holds only `cls`. */
  lemma SliceOfRun(line: string, i: nat, j: nat, cls: Class)
    requires i <= j <= |line| && AllIn(line, i, j, cls)
    ensures AllOf(line[i..j], cls)
  {
    forall k | 0 <= k < j - i
      ensures InClass(line[i..j][k], cls)
    {
      assert line[i..j][k] == line[i + k];
    }
  }

  /** `match.groupdict()`: the groups of a match, each with the shape of its
      sub-pattern. */
  function Captures(line: string, m: Spans): (f: FieldMap)
    requires IsMatch(line, m)
    ensures WellShaped(f)
  {
    SliceOfRun(line, m.start, m.ipEnd, IpChar);
    SliceOfRun(line, m.ipEnd + 6, m.tsEnd, AnyButNewline);
    SliceOfRun(line, m.tsEnd + 3, m.methodEnd, Word);
    SliceOfRun(line, m.methodEnd + 1, m.pathEnd, AnyButNewline);
    SliceOfRun(line, m.versionEnd + 2, m.statusEnd, Digit);
    SliceOfRun(line, m.statusEnd + 1, m.sizeEnd, Digit);
    FieldMap(line[m.start..m.ipEnd], line[m.ipEnd + 6..m.tsEnd], line[m.tsEnd + 3..m.methodEnd],
             line[m.methodEnd + 1..m.pathEnd], line[m.versionEnd + 2..m.statusEnd],
             line[m.statusEnd + 1..m.sizeEnd])
  }

  /** `log_pattern.search(line)` followed by `match.groupdict()`. */
  function MatchLine(line: string): (r: Option<FieldMap>)
    ensures r.Some? ==> WellShaped(r.value)
  {
    match Search(line, 0)
    case Some(m) =>
      MatchAtSound(line, m.start);
      Some(Captures(line, m))
    case None => None
  }

  // ---------------------------------------------------------------------------
  // What the scanner reports is a match
  // ---------------------------------------------------------------------------

  lemma TryTailSound(line: string, p: Spans, e: nat)
    requires e < |line| && line[e] == '"'
    requires TryTail(line, p, e).Some?
    ensures TailAt(line, TryTail(line, p, e).value)
  {
  }

  lemma {:induction false} TryVersionSound(line: string, p: Spans, e: nat)
    requires Marker(line, p.pathEnd)
    requires p.pathEnd + 6 <= e <= |line|
    requires AllIn(line, p.pathEnd + 6, e, AnyButNewline)
    requires TryVersion(line, p, e).Some?
    ensures VersionAt(line, TryVersion(line, p, e).value)
    decreases |line| - e
  {
    var here := if line[e] == '"' then TryTail(line, p, e) else None;
    if here.Some? {
      TryTailSound(line, p, e);
    } else {
      TryVersionSound(line, p, e + 1);
    }
  }

  lemma {:induction false} TryPathSound(line: string, p: Spans, d: nat)
    requires p.methodEnd + 1 <= d <= |line|
    requires AllIn(line, p.methodEnd + 1, d, AnyButNewline)
    requires TryPath(line, p, d).Some?
    ensures PathAt(line, TryPath(line, p, d).value)
    decreases |line| - d
  {
    var here := if Marker(line, d) then TryVersion(line, p.(pathEnd := d), d + 6) else None;
    if here.Some? {
      TryVersionSound(line, p.(pathEnd := d), d + 6);
    } else {
      TryPathSound(line, p, d + 1);
    }
  }

  lemma TryMethodSound(line: string, p: Spans)
    requires p.tsEnd < |line| && line[p.tsEnd] == ']'
    requires TryMethod(line, p).Some?
    ensures MethodAt(line, TryMethod(line, p).value)
  {
    var c := MethodEnd(line, p.tsEnd).value;
    TryPathSound(line, p.(methodEnd := c), c + 1);
  }

  lemma {:induction false} TryTsSound(line: string, p: Spans, b: nat)
    requires p.ipEnd + 6 <= b <= |line|
    requires AllIn(line, p.ipEnd + 6, b, AnyButNewline)
    requires TryTs(line, p, b).Some?
    ensures TsAt(line, TryTs(line, p, b).value)
    decreases |line| - b
  {
    var here := if line[b] == ']' then TryMethod(line, p.(tsEnd := b)) else None;
    if here.Some? {
      TryMethodSound(line, p.(tsEnd := b));
    } else {
      TryTsSound(line, p, b + 1);
    }
  }

  /** What `MatchAt` reports is a match of the whole pattern. */
  lemma MatchAtSound(line: string, s: nat)
    requires MatchAt(line, s).Some?
    ensures IsMatch(line, MatchAt(line, s).value)
  {
    var a := IpEnd(line, s).value;
    TryTsSound(line, Spans(s, a, 0, 0, 0, 0, 0, 0), a + 6);
  }

  // ---------------------------------------------------------------------------
  // The scanner returns the first match in backtracking order
  // ---------------------------------------------------------------------------

  /** At most one length of each greedy group can be part of a match: a run
      of ip characters, word characters or digits that is followed by
      whitespace cannot be shortened. */
  lemma ForcedGroups(line: string, m: Spans, m': Spans)
    requires IsMatch(line, m) && IsMatch(line, m') && m.start == m'.start
    ensures m.ipEnd == m'.ipEnd
    ensures m.tsEnd == m'.tsEnd ==> m.methodEnd == m'.methodEnd
    ensures m.versionEnd == m'.versionEnd ==> m.statusEnd == m'.statusEnd
  {
    IpForced(line, m);
    IpForced(line, m');
    if m.tsEnd == m'.tsEnd {
      MethodForced(line, m);
      MethodForced(line, m');
    }
    if m.versionEnd == m'.versionEnd {
      StatusForced(line, m);
      StatusForced(line, m');
    }
  }

  /** The ip group is the whole run of ip characters at the start. */
  lemma IpForced(line: string, m: Spans)
    requires IsMatch(line, m)
    ensures m.ipEnd == RunEnd(line, m.start, IpChar) && IpEnd(line, m.start) == Some(m.ipEnd)
  {
    RunEndIsForced(line, m.start, m.ipEnd, IpChar);
  }

  /** The method group is the whole run of word characters after `] "`. */
  lemma MethodForced(line: string, m: Spans)
    requires MethodAt(line, m)
    ensures m.methodEnd == RunEnd(line, m.tsEnd + 3, Word)
  {
    RunEndIsForced(line, m.tsEnd + 3, m.methodEnd, Word);
  }

  /** The status group is the whole run of digits after `" `. */
  lemma StatusForced(line: string, m: Spans)
    requires TailAt(line, m)
    ensures m.statusEnd == RunEnd(line, m.versionEnd + 2, Digit)
  {
    RunEndIsForced(line, m.versionEnd + 2, m.statusEnd, Digit);
  }

  lemma TryTailFirst(line: string, p: Spans, e: nat, m: Spans)
    requires e < |line| && line[e] == '"'
    requires AgreeToPath(m, p) && m.versionEnd == e && TailAt(line, m)
    ensures TryTail(line, p, e).Some? && TryTail(line, p, e).value.sizeEnd >= m.sizeEnd
  {
    RunEndIsForced(line, e + 2, m.statusEnd, Digit);
    RunEndIsLongest(line, m.statusEnd + 1, m.sizeEnd, Digit);
  }

  lemma {:induction false} TryVersionFirst(line: string, p: Spans, e: nat, m: Spans)
    requires Marker(line, p.pathEnd)
    requires p.pathEnd + 6 <= e <= |line|
    requires AllIn(line, p.pathEnd + 6, e, AnyButNewline)
    requires AgreeToPath(m, p) && VersionAt(line, m) && e <= m.versionEnd
    ensures TryVersion(line, p, e).Some? && VersionNoLater(TryVersion(line, p, e).value, m)
    decreases |line| - e
  {
    if m.versionEnd == e {
      TryTailFirst(line, p, e, m);
    } else {
      assert InClass(line[e], AnyButNewline);
      var here := if line[e] == '"' then TryTail(line, p, e) else None;
      if here.None? {
        TryVersionFirst(line, p, e + 1, m);
      }
    }
  }

  lemma {:induction false} TryPathFirst(line: string, p: Spans, d: nat, m: Spans)
    requires p.methodEnd + 1 <= d <= |line|
    requires AllIn(line, p.methodEnd + 1, d, AnyButNewline)
    requires AgreeToMethod(m, p) && PathAt(line, m) && d <= m.pathEnd
    ensures TryPath(line, p, d).Some? && PathNoLater(TryPath(line, p, d).value, m)
    decreases |line| - d
  {
    if m.pathEnd == d {
      TryVersionFirst(line, p.(pathEnd := d), d + 6, m);
    } else {
      assert InClass(line[d], AnyButNewline);
      var here := if Marker(line, d) then TryVersion(line, p.(pathEnd := d), d + 6) else None;
      if here.None? {
        TryPathFirst(line, p, d + 1, m);
      }
    }
  }

  /** No shorter method group can be followed by whitespace. */
  lemma MethodEndForced(line: string, b: nat, c: nat)
    requires b + 3 < c < |line| && line[b] == ']'
    requires IsSpace(line[b + 1]) && line[b + 2] == '"'
    requires AllIn(line, b + 3, c, Word) && IsSpace(line[c])
    ensures MethodEnd(line, b) == Some(c)
  {
    RunEndIsForced(line, b + 3, c, Word);
  }

  lemma TryMethodFirst(line: string, p: Spans, m: Spans)
    requires p.tsEnd < |line| && line[p.tsEnd] == ']'
    requires AgreeToTs(m, p) && MethodAt(line, m)
    ensures TryMethod(line, p).Some? && PathNoLater(TryMethod(line, p).value, m)
  {
    MethodEndForced(line, p.tsEnd, m.methodEnd);
    TryPathFirst(line, p.(methodEnd := m.methodEnd), m.methodEnd + 1, m);
  }

  lemma {:induction false} TryTsFirst(line: string, p: Spans, b: nat, m: Spans)
    requires p.ipEnd + 6 <= b <= |line|
    requires AllIn(line, p.ipEnd + 6, b, AnyButNewline)
    requires AgreeToIp(m, p) && TsAt(line, m) && b <= m.tsEnd
    ensures TryTs(line, p, b).Some? && TriedNoLater(TryTs(line, p, b).value, m)
    decreases |line| - b
  {
    if m.tsEnd == b {
      TryMethodFirst(line, p.(tsEnd := b), m);
    } else {
      assert InClass(line[b], AnyButNewline);
      var here := if line[b] == ']' then TryMethod(line, p.(tsEnd := b)) else None;
      if here.None? {
        TryTsFirst(line, p, b + 1, m);
      }
    }
  }

  lemma MatchAtFirst(line: string, m: Spans)
    requires IsMatch(line, m)
    ensures MatchAt(line, m.start).Some? && TriedNoLater(MatchAt(line, m.start).value, m)
  {
    IpForced(line, m);
    TryTsFirst(line, Spans(m.start, m.ipEnd, 0, 0, 0, 0, 0, 0), m.ipEnd + 6, m);
  }

  /** `Search` from `s` finds a match whenever one starts at or after `s`, and
      the one it finds starts no later and is tried no later. */
  lemma SearchFirst(line: string, s: nat, m: Spans)
    requires s <= m.start
    requires IsMatch(line, m)
    ensures Search(line, s).Some?
    ensures Search(line, s).value.start <= m.start
    ensures Search(line, s).value.start == m.start ==> TriedNoLater(Search(line, s).value, m)
  {
    MatchAtFirst(line, m);
    var f := x => MatchAt(line, x);
    assert f(m.start).Some?;
  }

  /** In the match `re.search` reports, the path is followed by whitespace and
      `HTTP/`, and among the matches at the same start with the same timestamp
      none has a shorter path. */
  lemma FirstMatchShortestPath(line: string, m: Spans, m': Spans)
    requires IsFirstMatch(line, m) && IsMatch(line, m') && m'.start == m.start
    ensures m.tsEnd <= m'.tsEnd
    ensures m.tsEnd == m'.tsEnd ==> m.pathEnd <= m'.pathEnd
    ensures IsSpace(line[m.pathEnd]) && line[m.pathEnd + 1..m.pathEnd + 6] == "HTTP/"
  {
    assert Marker(line, m.pathEnd);
    var http := line[m.pathEnd + 1..m.pathEnd + 6];
    assert http[0] == 'H' && http[1] == 'T' && http[2] == 'T' && http[3] == 'P' && http[4] == '/';
  }

  /** The backtracking order admits one first match at most. */
  lemma FirstMatchUnique(line: string, m: Spans, m': Spans)
    requires IsFirstMatch(line, m) && IsFirstMatch(line, m')
    ensures m == m'
  {
    ForcedGroups(line, m, m');
  }

  /** The line contributes a record exactly when the pattern matches somewhere
      in it, and the record holds the groups of the match `re.search` reports. */
  lemma MatchLineMeansSearch(line: string)
    ensures MatchLine(line).Some? <==> exists m :: IsMatch(line, m)
    ensures MatchLine(line).Some? ==>
      exists m :: IsFirstMatch(line, m) && MatchLine(line).value == Captures(line, m)
  {
    if Search(line, 0).Some? {
      MatchAtSound(line, Search(line, 0).value.start);
    }
    if r :| IsMatch(line, r) {
      SearchFirst(line, 0, r);
      var m := Search(line, 0).value;
      forall m' | IsMatch(line, m')
        ensures m.start < m'.start || (m.start == m'.start && TriedNoLater(m, m'))
      {
        SearchFirst(line, 0, m');
      }
      assert IsFirstMatch(line, m);
    }
  }
}
