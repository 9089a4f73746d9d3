/** The sample request line of the Common Log Format and the record that
    `log_pattern.search` extracts from it. The line is written as its groups
    joined by the literal text between them, so that each fact about one of
    its characters is a fact about one short piece. */
module ExampleLine {
  import opened Wrappers
  import opened Chars
  import opened LogPattern

  const Ip: string := "192.168.1.1"
  const Ts: string := "10/Oct/2023:13:55:36 -0700"
  const Verb: string := "GET"
  const Path: string := "/index.html"
  const Version: string := "1.1"
  const Status: string := "200"
  const Size: string := "532"

  /** `192.168.1.1 - - [10/Oct/2023:13:55:36 -0700] "GET /index.html HTTP/1.1" 200 532` */
  const Sample: string :=
    Ip + (" - - [" + (Ts + ("] \"" + (Verb + (" " + (Path + (" HTTP/" + (Version + ("\" " +
    (Status + (" " + Size)))))))))))

  /** Where the groups of the sample's match end. */
  const SampleSpans: Spans := Spans(0, 11, 43, 49, 61, 70, 75, 79)

  /** Every character of `s` from `i` on belongs to `cls`. */
  predicate InFrom(s: string, cls: Class, i: nat)
    decreases |s| - i
  {
    i >= |s| || (InClass(s[i], cls) && InFrom(s, cls, i + 1))
  }

  /** The character `c` does not occur in `s` from `i` on. */
  predicate ShunsFrom(s: string, c: char, i: nat)
    decreases |s| - i
  {
    i >= |s| || (s[i] != c && ShunsFrom(s, c, i + 1))
  }

  lemma {:induction false} InFromAt(s: string, cls: Class, i: nat, j: nat)
    requires InFrom(s, cls, i) && i <= j < |s|
    ensures InClass(s[j], cls)
    decreases j - i
  {
    if i < j {
      InFromAt(s, cls, i + 1, j);
    }
  }

  lemma {:induction false} ShunsAt(s: string, c: char, i: nat, j: nat)
    requires ShunsFrom(s, c, i) && i <= j < |s|
    ensures s[j] != c
    decreases j - i
  {
    if i < j {
      ShunsAt(s, c, i + 1, j);
    }
  }

  /** The timestamp holds no line break and no `]`, checked a few characters
      at a time. */
  lemma TsFrom20()
    ensures InFrom(Ts, AnyButNewline, 20) && ShunsFrom(Ts, ']', 20)
  {
  }

  lemma TsFrom15()
    ensures InFrom(Ts, AnyButNewline, 15) && ShunsFrom(Ts, ']', 15)
  {
    TsFrom20();
  }

  lemma TsFrom10()
    ensures InFrom(Ts, AnyButNewline, 10) && ShunsFrom(Ts, ']', 10)
  {
    TsFrom15();
  }

  lemma TsFrom5()
    ensures InFrom(Ts, AnyButNewline, 5) && ShunsFrom(Ts, ']', 5)
  {
    TsFrom10();
  }

  lemma TsPlain()
    ensures InFrom(Ts, AnyButNewline, 0) && ShunsFrom(Ts, ']', 0)
  {
    TsFrom5();
  }

  /** The characters of the sample at the fixed positions of the pattern. */
  lemma SampleLiterals()
    ensures |Sample| == 79
    ensures Separator(Sample, 11)
    ensures Sample[43] == ']' && IsSpace(Sample[44]) && Sample[45] == '"' && IsSpace(Sample[49])
    ensures Marker(Sample, 61) && Sample[61] != 'H'
    ensures Sample[70] == '"' && IsSpace(Sample[71]) && IsSpace(Sample[75])
  {
  }

  /** The runs of the sample: each group's characters belong to its class, and
      the characters that would close a lazy group early are absent. */
  lemma SampleIp()
    ensures AllIn(Sample, 0, 11, IpChar)
  {
    assert InFrom(Ip, IpChar, 0);
    forall k | 0 <= k < 11 ensures InClass(Sample[k], IpChar) {
      InFromAt(Ip, IpChar, 0, k);
    }
  }

  lemma SampleTs()
    ensures AllIn(Sample, 17, 43, AnyButNewline) && forall k :: 17 <= k < 43 ==> Sample[k] != ']'
  {
    TsPlain();
    forall k | 17 <= k < 43 ensures InClass(Sample[k], AnyButNewline) && Sample[k] != ']' {
      InFromAt(Ts, AnyButNewline, 0, k - 17);
      ShunsAt(Ts, ']', 0, k - 17);
    }
  }

  lemma SampleVerb()
    ensures AllIn(Sample, 46, 49, Word)
  {
    assert InFrom(Verb, Word, 0);
    forall k | 46 <= k < 49 ensures InClass(Sample[k], Word) {
      InFromAt(Verb, Word, 0, k - 46);
    }
  }

  lemma SamplePath()
    ensures AllIn(Sample, 50, 61, AnyButNewline) && forall k :: 50 <= k < 61 ==> Sample[k] != 'H'
  {
    assert InFrom(Path, AnyButNewline, 0) && ShunsFrom(Path, 'H', 0);
    forall k | 50 <= k < 61 ensures InClass(Sample[k], AnyButNewline) && Sample[k] != 'H' {
      InFromAt(Path, AnyButNewline, 0, k - 50);
      ShunsAt(Path, 'H', 0, k - 50);
    }
  }

  lemma SampleVersion()
    ensures AllIn(Sample, 67, 70, AnyButNewline) && forall k :: 67 <= k < 70 ==> Sample[k] != '"'
  {
    assert InFrom(Version, AnyButNewline, 0) && ShunsFrom(Version, '"', 0);
    forall k | 67 <= k < 70 ensures InClass(Sample[k], AnyButNewline) && Sample[k] != '"' {
      InFromAt(Version, AnyButNewline, 0, k - 67);
      ShunsAt(Version, '"', 0, k - 67);
    }
  }

  lemma SampleNumbers()
    ensures AllIn(Sample, 72, 75, Digit) && AllIn(Sample, 76, 79, Digit)
  {
    assert InFrom(Status, Digit, 0) && InFrom(Size, Digit, 0);
    forall k | 72 <= k < 75 ensures InClass(Sample[k], Digit) {
      InFromAt(Status, Digit, 0, k - 72);
    }
    forall k | 76 <= k < 79 ensures InClass(Sample[k], Digit) {
      InFromAt(Size, Digit, 0, k - 76);
    }
  }

  /** The pattern matches the sample with its groups at `SampleSpans`. */
  lemma SampleMatches()
    ensures IsMatch(Sample, SampleSpans)
  {
    SampleLiterals();
    SampleIp();
    SampleTs();
    SampleVerb();
    SamplePath();
    SampleVersion();
    SampleNumbers();
  }

  /** The scanner reports exactly that match: no shorter timestamp, path or
      version closes early, because the sample has no `]`, no ` HTTP/` and no
      `"` where they would have to. */
  lemma SampleSearch()
    ensures Search(Sample, 0) == Some(SampleSpans)
  {
    var m := SampleSpans;
    SampleMatches();
    SearchFirst(Sample, 0, m);
    var r := Search(Sample, 0).value;
    MatchAtSound(Sample, r.start);
    ForcedGroups(Sample, r, m);
    SampleLiterals();
    SampleTs();
    SamplePath();
    SampleVersion();
    assert r.tsEnd == 43 by {
      assert Sample[r.tsEnd] == ']';
    }
    assert r.pathEnd == 61 by {
      assert Marker(Sample, r.pathEnd);
    }
    assert r.versionEnd == 70 by {
      assert Sample[r.versionEnd] == '"';
    }
  }

  /** The groups of `SampleSpans` cut out of the sample, one at a time. */
  lemma IpSlice() ensures Sample[0..11] == Ip { }
  lemma TsSlice() ensures Sample[17..43] == Ts { }
  lemma VerbSlice() ensures Sample[46..49] == Verb { }
  lemma PathSlice() ensures Sample[50..61] == Path { }
  lemma StatusSlice() ensures Sample[72..75] == Status { }
  lemma SizeSlice() ensures Sample[76..79] == Size { }

  /** `log_pattern.search` on the sample line yields the six groups. */
  lemma SampleRecord()
    ensures MatchLine(Sample) == Some(FieldMap(Ip, Ts, Verb, Path, Status, Size))
  {
    SampleSearch();
    IpSlice();
    TsSlice();
    VerbSlice();
    PathSlice();
    StatusSlice();
    SizeSlice();
  }
}
