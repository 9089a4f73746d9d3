/** `visualize_status_counts` without the drawing: the status column is counted
    per code with keys in ascending order (`value_counts().sort_index()`), and
    each code gets the colour class chosen by the first character of its
    decimal text. */
module StatusReport {
  import opened Wrappers
  import opened Decimal
  import opened Coercion

  /** One entry of the counted series: a status code and how often it occurs. */
  datatype Bin = Bin(code: int, count: nat)

  ghost predicate StrictlyAscending(bins: seq<Bin>) {
    forall i, j :: 0 <= i < j < |bins| ==> bins[i].code < bins[j].code
  }

  ghost predicate AllPositive(bins: seq<Bin>) {
    forall i :: 0 <= i < |bins| ==> bins[i].count >= 1
  }

  /** The count the series holds for `k` (0 when `k` is not a key). */
  function CountOf(bins: seq<Bin>, k: int): nat {
    if bins == [] then 0 else if bins[0].code == k then bins[0].count else CountOf(bins[1..], k)
  }

  /** The sum of all counts. */
  function Total(bins: seq<Bin>): nat {
    if bins == [] then 0 else bins[0].count + Total(bins[1..])
  }

  /** Count one more occurrence of `x`, keeping the keys in ascending order. */
  function AddOne(bins: seq<Bin>, x: int): (r: seq<Bin>)
    ensures |bins| <= |r| <= |bins| + 1
  {
    if bins == [] || x < bins[0].code then [Bin(x, 1)] + bins
    else if x == bins[0].code then [Bin(x, bins[0].count + 1)] + bins[1..]
    else [bins[0]] + AddOne(bins[1..], x)
  }

  /** `status.value_counts().sort_index()`: no more entries than records, and
      none only for an empty column. */
  function ValueCounts(statuses: seq<int>): (r: seq<Bin>)
    ensures |r| <= |statuses|
    ensures r == [] <==> statuses == []
  {
    if statuses == [] then []
    else AddOne(ValueCounts(statuses[..|statuses| - 1]), statuses[|statuses| - 1])
  }

  // ---------------------------------------------------------------------------

  lemma {:induction false} CountOfAbsent(bins: seq<Bin>, k: int)
    requires forall i :: 0 <= i < |bins| ==> bins[i].code != k
    ensures CountOf(bins, k) == 0
  {
    if bins != [] {
      CountOfAbsent(bins[1..], k);
    }
  }

  /** In an ascending series the count of a key is the count stored with it. */
  lemma CountOfKey(bins: seq<Bin>, i: nat)
    requires StrictlyAscending(bins) && i < |bins|
    ensures CountOf(bins, bins[i].code) == bins[i].count
  {
    var k := bins[i].code;
    var j := 0;
    while j < i
      invariant j <= i
      invariant CountOf(bins, k) == CountOf(bins[j..], k)
    {
      assert bins[j..][1..] == bins[j + 1..];
      j := j + 1;
    }
  }

  /** A positive count means the key is present. */
  lemma {:induction false} CountOfPresent(bins: seq<Bin>, k: int)
    requires CountOf(bins, k) > 0
    ensures exists i :: 0 <= i < |bins| && bins[i].code == k
  {
    if bins[0].code != k {
      CountOfPresent(bins[1..], k);
      var i :| 0 <= i < |bins[1..]| && bins[1..][i].code == k;
      assert bins[i + 1].code == k;
    }
  }

  /** Counting one more record keeps the keys ascending and the counts
      positive; the first key is the smaller of `x` and the old first key. */
  lemma {:induction false} AddOneOrdered(bins: seq<Bin>, x: int)
    requires StrictlyAscending(bins) && AllPositive(bins)
    ensures StrictlyAscending(AddOne(bins, x)) && AllPositive(AddOne(bins, x))
    ensures |AddOne(bins, x)| > 0
    ensures AddOne(bins, x)[0].code == if bins == [] || x < bins[0].code then x else bins[0].code
  {
    if bins != [] && x > bins[0].code {
      AddOneOrdered(bins[1..], x);
    }
  }

  /** Counting one more `x` raises the count of `x` by one and no other. */
  lemma {:induction false} AddOneCountOf(bins: seq<Bin>, x: int, k: int)
    requires StrictlyAscending(bins)
    ensures CountOf(AddOne(bins, x), k) == CountOf(bins, k) + (if k == x then 1 else 0)
  {
    if bins == [] || x < bins[0].code {
      if k == x {
        CountOfAbsent(bins, x);
      }
    } else if x == bins[0].code {
      if k == x {
        CountOfAbsent(bins[1..], x);
      }
    } else {
      AddOneCountOf(bins[1..], x, k);
    }
  }

  /** Counting one more record raises the total by one. */
  lemma {:induction false} AddOneTotal(bins: seq<Bin>, x: int)
    ensures Total(AddOne(bins, x)) == Total(bins) + 1
  {
    if bins != [] && x > bins[0].code {
      AddOneTotal(bins[1..], x);
    }
  }

  lemma {:induction false} ValueCountsOrdered(statuses: seq<int>)
    ensures StrictlyAscending(ValueCounts(statuses)) && AllPositive(ValueCounts(statuses))
  {
    if statuses != [] {
      var n := |statuses| - 1;
      ValueCountsOrdered(statuses[..n]);
      AddOneOrdered(ValueCounts(statuses[..n]), statuses[n]);
    }
  }

  lemma {:induction false} ValueCountsCountOf(statuses: seq<int>, k: int)
    ensures CountOf(ValueCounts(statuses), k) == multiset(statuses)[k]
  {
    if statuses != [] {
      var n := |statuses| - 1;
      var front, x := statuses[..n], statuses[n];
      ValueCountsCountOf(front, k);
      ValueCountsOrdered(front);
      AddOneCountOf(ValueCounts(front), x, k);
      assert statuses == front + [x];
      assert multiset(statuses) == multiset(front) + multiset{x};
    }
  }

  lemma {:induction false} ValueCountsTotal(statuses: seq<int>)
    ensures Total(ValueCounts(statuses)) == |statuses|
  {
    if statuses != [] {
      var n := |statuses| - 1;
      ValueCountsTotal(statuses[..n]);
      AddOneTotal(ValueCounts(statuses[..n]), statuses[n]);
    }
  }

  /** The counted series has strictly ascending keys, every count at least 1,
      the count of every code equal to its number of occurrences (so the keys
      are exactly the distinct codes), and counts summing to the number of
      records. */
  lemma ValueCountsCorrect(statuses: seq<int>)
    ensures StrictlyAscending(ValueCounts(statuses)) && AllPositive(ValueCounts(statuses))
    ensures forall k :: CountOf(ValueCounts(statuses), k) == multiset(statuses)[k]
    ensures Total(ValueCounts(statuses)) == |statuses|
  {
    ValueCountsOrdered(statuses);
    ValueCountsTotal(statuses);
    forall k
      ensures CountOf(ValueCounts(statuses), k) == multiset(statuses)[k]
    {
      ValueCountsCountOf(statuses, k);
    }
  }

  /** Every key is a code of the input, with its number of occurrences, and
      every code of the input is a key. */
  lemma ValueCountsKeys(statuses: seq<int>)
    ensures forall i :: 0 <= i < |ValueCounts(statuses)| ==>
              ValueCounts(statuses)[i].count == multiset(statuses)[ValueCounts(statuses)[i].code]
    ensures forall x :: x in statuses ==> exists i :: 0 <= i < |ValueCounts(statuses)| && ValueCounts(statuses)[i].code == x
  {
    var vc := ValueCounts(statuses);
    ValueCountsCorrect(statuses);
    forall i | 0 <= i < |vc|
      ensures vc[i].count == multiset(statuses)[vc[i].code]
    {
      CountOfKey(vc, i);
    }
    forall x | x in statuses
      ensures exists i :: 0 <= i < |vc| && vc[i].code == x
    {
      CountOfPresent(vc, x);
    }
  }

  lemma FirstCountPositive(bins: seq<Bin>)
    requires AllPositive(bins) && bins != []
    ensures CountOf(bins, bins[0].code) >= 1
  {
  }

  /** An ascending series with positive counts is determined by its counts. */
  lemma {:induction false} SeriesDeterminedByCounts(a: seq<Bin>, b: seq<Bin>)
    requires StrictlyAscending(a) && AllPositive(a) && StrictlyAscending(b) && AllPositive(b)
    requires forall k :: CountOf(a, k) == CountOf(b, k)
    ensures a == b
    decreases |a| + |b|
  {
    if a != [] {
      FirstCountPositive(a);
    }
    if b != [] {
      FirstCountPositive(b);
    }
    if a != [] && b != [] {
      if a[0].code < b[0].code {
        CountOfAbsent(b, a[0].code);
      } else if b[0].code < a[0].code {
        CountOfAbsent(a, b[0].code);
      } else {
        assert CountOf(a, a[0].code) == CountOf(b, b[0].code);
        forall k
          ensures CountOf(a[1..], k) == CountOf(b[1..], k)
        {
          if k == a[0].code {
            CountOfAbsent(a[1..], k);
            CountOfAbsent(b[1..], k);
          } else {
            assert CountOf(a, k) == CountOf(a[1..], k);
            assert CountOf(b, k) == CountOf(b[1..], k);
          }
        }
        SeriesDeterminedByCounts(a[1..], b[1..]);
        assert a == [a[0]] + a[1..] && b == [b[0]] + b[1..];
      }
    }
  }

  /** The counted series does not depend on the order the records arrive in. */
  lemma ValueCountsIgnoreOrder(xs: seq<int>, ys: seq<int>)
    requires multiset(xs) == multiset(ys)
    ensures ValueCounts(xs) == ValueCounts(ys)
  {
    ValueCountsCorrect(xs);
    ValueCountsCorrect(ys);
    SeriesDeterminedByCounts(ValueCounts(xs), ValueCounts(ys));
  }

  /** Records that all share one code are counted in a single entry. */
  lemma ValueCountsOfOneCode(xs: seq<int>, c: int)
    requires |xs| > 0
    requires forall i :: 0 <= i < |xs| ==> xs[i] == c
    ensures ValueCounts(xs) == [Bin(c, |xs|)]
  {
    ValueCountsCorrect(xs);
    var one := [Bin(c, |xs|)];
    assert multiset(xs) == multiset{}[c := |xs|] by {
      assert xs == seq(|xs|, i => c);
      MultisetOfConstant(|xs|, c);
    }
    forall k
      ensures CountOf(ValueCounts(xs), k) == CountOf(one, k)
    {
      assert CountOf(one, k) == if k == c then |xs| else 0;
    }
    SeriesDeterminedByCounts(ValueCounts(xs), one);
  }

  lemma {:induction false} MultisetOfConstant(n: nat, c: int)
    ensures multiset(seq(n, i => c)) == multiset{}[c := n]
  {
    if n > 0 {
      MultisetOfConstant(n - 1, c);
      assert seq(n, i => c) == seq(n - 1, i => c) + [c];
    }
  }

  // ---------------------------------------------------------------------------
  // Colours
  // ---------------------------------------------------------------------------

  /** The five bar colours: green, orange, red, dark red and gray. */
  datatype StatusClass = Success | Redirect | ClientError | ServerError | Other

  /** The class for a leading character. */
  function ClassOfChar(c: char): StatusClass {
    if c == '2' then Success
    else if c == '3' then Redirect
    else if c == '4' then ClientError
    else if c == '5' then ServerError
    else Other
  }

  /** The class chosen by `str(code).startswith(...)`. */
  function ClassOf(code: int): (c: StatusClass)
    ensures code < 0 ==> c == Other
  {
    var text := DecimalText(code);
    if |text| > 0 then ClassOfChar(text[0]) else Other
  }

  /** The class of a code is decided by its leading decimal digit; negative
      codes (whose text starts with '-') are Other. */
  lemma ClassOfLeadingDigit(code: int)
    ensures ClassOf(code) == if code < 0 then Other else ClassOfChar(DigitChar(LeadingDigit(code)))
  {
    if code >= 0 {
      NatTextCanonical(code);
    }
  }

  /** For three-digit codes the class is the hundreds digit: 2xx success,
      3xx redirect, 4xx client error, 5xx server error. */
  lemma ClassOfHttpStatus(code: int)
    requires 100 <= code <= 999
    ensures ClassOf(code) == if code / 100 == 2 then Success
                             else if code / 100 == 3 then Redirect
                             else if code / 100 == 4 then ClientError
                             else if code / 100 == 5 then ServerError
                             else Other
  {
    ClassOfLeadingDigit(code);
    LeadingDigitOfThreeDigits(code);
  }

  /** The colour loop: one class per key, in key order. */
  method StatusColors(bins: seq<Bin>) returns (colors: seq<StatusClass>)
    ensures |colors| == |bins|
    ensures forall i :: 0 <= i < |bins| ==> colors[i] == ClassOf(bins[i].code)
  {
    colors := [];
    for i := 0 to |bins|
      invariant |colors| == i
      invariant forall j :: 0 <= j < i ==> colors[j] == ClassOf(bins[j].code)
    {
      colors := colors + [ClassOf(bins[i].code)];
    }
  }

  /** What the bar chart shows: the counted series and one colour per bar. */
  datatype Chart = Chart(bars: seq<Bin>, colors: seq<StatusClass>)

  /** `visualize_status_counts(df)`: nothing for an empty frame, otherwise one
      bar per distinct status code in ascending order, with its count and the
      class of its leading digit. */
  method VisualizeStatusCounts(df: Frame) returns (chart: Option<Chart>)
    ensures chart.None? <==> IsEmpty(df)
    ensures chart.Some? ==> chart.value.bars == ValueCounts(df.status) && |chart.value.bars| > 0
    ensures chart.Some? ==> |chart.value.colors| == |chart.value.bars|
    ensures chart.Some? ==> forall i :: 0 <= i < |chart.value.bars| ==>
              chart.value.colors[i] == ClassOf(chart.value.bars[i].code)
  {
    if IsEmpty(df) {
      return None;
    }
    var counts := ValueCounts(df.status);
    ValueCountsCorrect(df.status);
    assert Total(counts) == |df.status| > 0;
    var colors := StatusColors(counts);
    return Some(Chart(counts, colors));
  }
}
