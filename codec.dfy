/**
 * The compact weekly series encoding of pick-anomalies.py. A series of
 * integers is kept as one comma-separated string; while it holds nothing but
 * the sentinel (up to 26 of them) it is spelt as a run of `*` tokens taken
 * from the precomputed `CONST_ZERO_LOOKUP` table. Decoding puts the sentinel
 * back for every `*` and parses the pieces.
 */
module SeriesCodec {
  import opened Wrappers
  import opened Text

  /** `UNAVAILABLE_DATA_POINT`. */
  const Unavailable: int := -9999

  /** `k` star tokens joined by commas; the empty string for no token. */
  function Stars(k: nat): (r: string)
    ensures |r| == if k == 0 then 0 else 2 * k - 1
    ensures forall i :: 0 <= i < |r| ==> r[i] == '*' || r[i] == ','
  {
    if k == 0 then "" else if k == 1 then "*" else Stars(k - 1) + ",*"
  }

  /** The number of tokens in a run of stars `l` long. */
  function RunLength(l: string): nat
  {
    (|l| + 1) / 2
  }

  /** `l` is a run of at most `n` stars (the empty run included). */
  predicate ShortRun(l: string, n: nat)
  {
    RunLength(l) <= n && l == Stars(RunLength(l))
  }

  /** `l in CONST_ZERO_LOOKUP`. */
  predicate InZeroLookup(l: string)
  {
    ShortRun(l, 25)
  }

  /** `CONST_ZERO_LOOKUP[l]`: the run one token longer. */
  function NextRun(l: string): (r: string)
    ensures r != ""
  {
    Stars(RunLength(l) + 1)
  }

  lemma RunLengthOfStars(k: nat)
    ensures RunLength(Stars(k)) == k
  {
  }

  /** The table holds the empty string and each run of 1 to 25 stars, each mapped to the run one longer. */
  lemma ZeroLookupEntries(l: string)
    ensures InZeroLookup(l) <==> exists k :: 0 <= k <= 25 && l == Stars(k)
    ensures forall k :: 0 <= k <= 25 ==> InZeroLookup(Stars(k)) && NextRun(Stars(k)) == Stars(k + 1)
  {
    if InZeroLookup(l) {
      assert l == Stars(RunLength(l));
    }
    forall k | 0 <= k <= 25
      ensures InZeroLookup(Stars(k)) && NextRun(Stars(k)) == Stars(k + 1)
    {
      RunLengthOfStars(k);
    }
  }

  /** `s` is `CONST_ZERO_LOOKUP`: its keys are the runs of 0 to 25 stars, each mapped to the next run. */
  ghost predicate IsZeroLookup(s: map<string, string>)
  {
    (forall l :: l in s <==> InZeroLookup(l)) && forall l :: l in s ==> s[l] == NextRun(l)
  }

  /** `generate_const_zero_list`: builds the table one entry per iteration. */
  method GenerateConstZeroList() returns (s: map<string, string>)
    ensures IsZeroLookup(s)
  {
    var last := "*";
    s := map["" := last];
    for i := 0 to 25
      invariant last == Stars(i + 1)
      invariant forall l :: l in s <==> ShortRun(l, i)
      invariant forall l :: l in s ==> s[l] == NextRun(l)
    {
      RunLengthOfStars(i + 1);
      RunLengthOfStars(i + 2);
      var next := last + ",*";
      s := s[last := next];
      last := next;
    }
  }

  /** One update of a series cell: the string after appending `v` to `l`. */
  function Append(l: string, v: int): (r: string)
    ensures r != ""
  {
    if v == Unavailable && InZeroLookup(l) then NextRun(l)
    else if |l| == 0 then IntToString(v)
    else l + "," + IntToString(v)
  }

  /** The cell after appending every value of `vs`, in order, to the empty string. */
  function Encode(vs: seq<int>): (r: string)
    ensures r == "" <==> vs == []
  {
    if vs == [] then "" else Append(Encode(vs[..|vs| - 1]), vs[|vs| - 1])
  }

  /** `int(x.strip())` of every piece, or None if any piece raises ValueError. */
  function ParseAll(ts: seq<string>): (r: Option<seq<int>>)
    ensures r.Some? ==> |r.value| == |ts|
  {
    if ts == [] then Some([])
    else match (ParseAll(ts[..|ts| - 1]), ParseInt(ts[|ts| - 1]))
      case (Some(front), Some(v)) => Some(front + [v])
      case _ => None
  }

  /** The scan's decoding of a cell: stars back to the sentinel, split on commas, parse. */
  function Decode(s: string): (r: Option<seq<int>>)
    ensures r.Some? ==> |r.value| > 0
  {
    ParseAll(Split(Replace(s, '*', IntToString(Unavailable))))
  }

  /** The decimal numerals of `vs`. */
  function Numerals(vs: seq<int>): (r: seq<string>)
    ensures |r| == |vs|
    ensures forall i :: 0 <= i < |vs| ==> r[i] == IntToString(vs[i])
  {
    if vs == [] then [] else Numerals(vs[..|vs| - 1]) + [IntToString(vs[|vs| - 1])]
  }

  /** Parsing one more piece that parses extends the parsed series by its value. */
  lemma ParseAllSnoc(ts: seq<string>, t: string, front: seq<int>, v: int)
    requires ParseAll(ts) == Some(front) && ParseInt(t) == Some(v)
    ensures ParseAll(ts + [t]) == Some(front + [v])
  {
    assert (ts + [t])[..|ts|] == ts;
  }

  lemma {:induction false} ParseNumerals(vs: seq<int>)
    ensures ParseAll(Numerals(vs)) == Some(vs)
    decreases |vs|
  {
    if vs != [] {
      var front, v := vs[..|vs| - 1], vs[|vs| - 1];
      assert front + [v] == vs;
      ParseNumerals(front);
      IntRoundTrip(v);
      assert Numerals(vs) == Numerals(front) + [IntToString(v)];
      ParseAllSnoc(Numerals(front), IntToString(v), front, v);
    }
  }

  lemma SentinelNumeral()
    ensures IntToString(Unavailable) == "-9999"
  {
    assert NatToString(9) == "9";
    assert NatToString(99) == NatToString(9) + "9";
    assert NatToString(999) == NatToString(99) + "9";
    assert NatToString(9999) == NatToString(999) + "9";
  }

  lemma NumeralNoStar(v: int)
    ensures '*' !in IntToString(v) && ',' !in IntToString(v)
  {
  }

  /** Spelling out the stars of a run of `k + 1` stars. */
  lemma ReplaceLongerRun(k: nat)
    requires k >= 1
    ensures Replace(Stars(k + 1), '*', "-9999") == Replace(Stars(k), '*', "-9999") + ",-9999"
  {
    var t := ",*";
    assert t[1..] == "*";
    assert Replace(t[1..], '*', "-9999") == "-9999" + Replace("", '*', "-9999");
    assert Replace(t, '*', "-9999") == [','] + Replace(t[1..], '*', "-9999");
    ReplaceAppend(Stars(k), t, '*', "-9999");
  }

  /** Spelling out the first value appended to an empty cell. */
  lemma SpellFirst(v: int)
    ensures Replace(Append("", v), '*', "-9999") == IntToString(v)
  {
    NumeralNoStar(v);
    if v == Unavailable {
      SentinelNumeral();
      RunLengthOfStars(0);
      assert Append("", v) == Stars(1);
      var t := "*";
      assert Replace(t, '*', "-9999") == "-9999" + Replace("", '*', "-9999");
    }
  }

  /** Spelling out a sentinel appended to a run of 1 to 25 stars. */
  lemma SpellRun(l: string)
    requires l != "" && InZeroLookup(l)
    ensures Replace(Append(l, Unavailable), '*', "-9999") == Replace(l, '*', "-9999") + ",-9999"
  {
    ZeroLookupEntries(l);
    var k :| 0 <= k <= 25 && l == Stars(k);
    ReplaceLongerRun(k);
  }

  /** Spelling out a value written as a numeral after a non-empty cell. */
  lemma SpellValue(l: string, v: int)
    requires l != ""
    ensures Replace(l + "," + IntToString(v), '*', "-9999") == Replace(l, '*', "-9999") + "," + IntToString(v)
  {
    var t := "," + IntToString(v);
    NumeralNoStar(v);
    assert '*' !in t by {
      assert t == [','] + IntToString(v);
    }
    ReplaceAppend(l, t, '*', "-9999");
    assert l + "," + IntToString(v) == l + t;
    assert Replace(l, '*', "-9999") + "," + IntToString(v) == Replace(l, '*', "-9999") + t;
  }

  /** Spelling out a value appended to a non-empty cell. */
  lemma SpellNext(l: string, v: int)
    requires l != ""
    ensures Replace(Append(l, v), '*', "-9999") == Replace(l, '*', "-9999") + "," + IntToString(v)
  {
    if v == Unavailable && InZeroLookup(l) {
      SentinelNumeral();
      SpellRun(l);
    } else {
      SpellValue(l, v);
    }
  }

  /** Replacing the stars of an encoding spells out every value as a numeral. */
  lemma {:induction false} EncodeSpelled(vs: seq<int>)
    requires vs != []
    ensures Replace(Encode(vs), '*', "-9999") == Join(Numerals(vs))
    decreases |vs|
  {
    var front, v := vs[..|vs| - 1], vs[|vs| - 1];
    var l := Encode(front);
    assert Encode(vs) == Append(l, v);
    if front == [] {
      SpellFirst(v);
      assert Numerals(vs) == [IntToString(v)];
    } else {
      EncodeSpelled(front);
      SpellNext(l, v);
      JoinSnoc(Numerals(front), IntToString(v));
    }
  }

  /** Decoding the encoding of a non-empty series gives the series back, sentinels included. */
  lemma RoundTrip(vs: seq<int>)
    requires vs != []
    ensures Decode(Encode(vs)) == Some(vs)
  {
    SentinelNumeral();
    EncodeSpelled(vs);
    forall i | 0 <= i < |vs|
      ensures ',' !in Numerals(vs)[i]
    {
      NumeralNoStar(vs[i]);
    }
    SplitJoin(Numerals(vs));
    ParseNumerals(vs);
  }

  /** `k` sentinels in a row. */
  function Sentinels(k: nat): (r: seq<int>)
    ensures |r| == k && forall i :: 0 <= i < k ==> r[i] == Unavailable
  {
    seq(k, _ => Unavailable)
  }

  /** Up to 26 sentinels are spelt as a run of as many stars. */
  lemma {:induction false} SentinelsAreStars(k: nat)
    requires k <= 26
    ensures Encode(Sentinels(k)) == Stars(k)
  {
    if k > 0 {
      assert Sentinels(k)[..k - 1] == Sentinels(k - 1);
      SentinelsAreStars(k - 1);
      ZeroLookupEntries(Stars(k - 1));
    }
  }
}
