/**
 * The master scraper: it runs the three scrapers in a fixed order, keeps
 * the first record of every normalised title, and tallies the survivors
 * by source, category and state.
 */
module Aggregate {
  import opened Wrappers
  import opened Text
  import opened Records

  /** The deduplication key: the title lower-cased, then stripped. */
  function Key(o: Opportunity): string {
    Strip(Lower(o.title))
  }

  /**
   * A key has no ASCII capital and no whitespace at either end, and is the
   * lower-cased title with only whitespace removed around it.
   */
  lemma KeyShape(o: Opportunity)
    ensures var k := Key(o);
      && (forall c :: c in k ==> !('A' <= c <= 'Z'))
      && (k != [] ==> !IsSpace(k[0]) && !IsSpace(k[|k| - 1]))
      && Trims(Lower(o.title), k)
  {
    var t := Lower(o.title);
    StripInfix(t);
    TrimmedChars(t, Strip(t));
    LowerHasNoCapital(o.title);
  }

  /** Titles that differ only in the case of ASCII letters have the same key. */
  lemma KeyIgnoresCase(o: Opportunity, p: Opportunity)
    requires Lower(o.title) == Lower(p.title)
    ensures Key(o) == Key(p)
  {
  }

  /** The keys of a sequence of items, under the key function `key`. */
  function KeySet<T>(s: seq<T>, key: T -> string): set<string> {
    set i | 0 <= i < |s| :: key(s[i])
  }

  lemma KeySetAppend<T>(s: seq<T>, o: T, key: T -> string)
    ensures KeySet(s + [o], key) == KeySet(s, key) + {key(o)}
  {
    var t := s + [o];
    assert forall i :: 0 <= i < |s| ==> t[i] == s[i];
    assert t[|s|] == o;
  }

  /** Reference definition of first-occurrence-wins deduplication, one item at a time from the left. */
  function Dedup<T>(s: seq<T>, key: T -> string): seq<T> {
    if s == [] then []
    else
      var kept := Dedup(s[..|s| - 1], key);
      if key(s[|s| - 1]) in KeySet(kept, key) then kept else kept + [s[|s| - 1]]
  }

  /** remove_duplicates: a seen-set of keys and a list of the records kept. */
  method RemoveDuplicates(opportunities: seq<Opportunity>) returns (unique: seq<Opportunity>)
    ensures unique == Dedup(opportunities, Key)
  {
    var seen: set<string> := {};
    unique := [];
    for i := 0 to |opportunities|
      invariant unique == Dedup(opportunities[..i], Key)
      invariant seen == KeySet(unique, Key)
    {
      var opp := opportunities[i];
      var key := Key(opp);
      assert opportunities[..i + 1][..i] == opportunities[..i];
      if key !in seen {
        KeySetAppend(unique, opp, Key);
        seen := seen + {key};
        unique := unique + [opp];
      }
    }
    assert opportunities[..|opportunities|] == opportunities;
  }

  predicate DistinctKeys<T>(s: seq<T>, key: T -> string) {
    forall i, j :: 0 <= i < j < |s| ==> key(s[i]) != key(s[j])
  }

  /** Index of the first item of s with key k. */
  function FirstIndex<T>(s: seq<T>, key: T -> string, k: string): (r: nat)
    requires k in KeySet(s, key)
    ensures r < |s| && key(s[r]) == k
    ensures forall i :: 0 <= i < r ==> key(s[i]) != k
  {
    if key(s[0]) == k then 0
    else
      assert k in KeySet(s[1..], key) by {
        var i :| 0 <= i < |s| && key(s[i]) == k;
        assert s[1..][i - 1] == s[i];
      }
      1 + FirstIndex(s[1..], key, k)
  }

  /** The first occurrence is unique: an index with key k and none before it is FirstIndex. */
  lemma FirstIndexUnique<T>(s: seq<T>, key: T -> string, k: string, i: nat)
    requires i < |s| && key(s[i]) == k
    requires forall j :: 0 <= j < i ==> key(s[j]) != k
    ensures k in KeySet(s, key) && FirstIndex(s, key, k) == i
  {
  }

  lemma {:induction false} DedupKeys<T>(s: seq<T>, key: T -> string)
    ensures KeySet(Dedup(s, key), key) == KeySet(s, key)
    decreases |s|
  {
    if s != [] {
      var init, last := s[..|s| - 1], s[|s| - 1];
      DedupKeys(init, key);
      assert s == init + [last];
      KeySetAppend(init, last, key);
      KeySetAppend(Dedup(init, key), last, key);
    }
  }

  lemma {:induction false} DedupDistinct<T>(s: seq<T>, key: T -> string)
    ensures DistinctKeys(Dedup(s, key), key)
    decreases |s|
  {
    if s != [] {
      var init, last := s[..|s| - 1], s[|s| - 1];
      DedupDistinct(init, key);
      var kept := Dedup(init, key);
      if key(last) !in KeySet(kept, key) {
        var r := kept + [last];
        forall i, j | 0 <= i < j < |r| ensures key(r[i]) != key(r[j]) {
          if j == |kept| {
            assert key(r[i]) in KeySet(kept, key) by { assert r[i] == kept[i]; }
          }
        }
      }
    }
  }

  lemma {:induction false} DedupSubsequence<T>(s: seq<T>, key: T -> string)
    ensures IsSubsequence(Dedup(s, key), s)
    decreases |s|
  {
    if s != [] {
      var init := s[..|s| - 1];
      DedupSubsequence(init, key);
      var kept := Dedup(init, key);
      if key(s[|s| - 1]) !in KeySet(kept, key) {
        assert (kept + [s[|s| - 1]])[..|kept|] == kept;
      } else if kept != [] {
        assert IsSubsequence(kept, s[..|s| - 1]);
      }
    }
  }

  /** Every kept item is the first item of the input with its key. */
  lemma {:induction false} DedupKeepsFirst<T>(s: seq<T>, key: T -> string)
    ensures forall j :: 0 <= j < |Dedup(s, key)| ==>
      && key(Dedup(s, key)[j]) in KeySet(s, key)
      && Dedup(s, key)[j] == s[FirstIndex(s, key, key(Dedup(s, key)[j]))]
    decreases |s|
  {
    if s != [] {
      var init, last := s[..|s| - 1], s[|s| - 1];
      DedupKeepsFirst(init, key);
      DedupKeys(init, key);
      var kept := Dedup(init, key);
      var r := Dedup(s, key);
      forall j | 0 <= j < |r|
        ensures key(r[j]) in KeySet(s, key) && r[j] == s[FirstIndex(s, key, key(r[j]))]
      {
        if j < |kept| {
          var k := key(kept[j]);
          var f := FirstIndex(init, key, k);
          assert s[f] == init[f];
          FirstIndexUnique(s, key, k, f);
        } else {
          assert r[j] == last && key(last) !in KeySet(init, key);
          forall i | 0 <= i < |init| ensures key(s[i]) != key(last) {
            assert s[i] == init[i];
          }
          FirstIndexUnique(s, key, key(last), |init|);
        }
      }
    }
  }

  /** Items whose keys are already distinct pass through unchanged. */
  lemma {:induction false} DedupOfDistinct<T>(s: seq<T>, key: T -> string)
    requires DistinctKeys(s, key)
    ensures Dedup(s, key) == s
    decreases |s|
  {
    if s != [] {
      var init, last := s[..|s| - 1], s[|s| - 1];
      forall i, j | 0 <= i < j < |init| ensures key(init[i]) != key(init[j]) {
        assert init[i] == s[i] && init[j] == s[j];
      }
      DedupOfDistinct(init, key);
      forall i | 0 <= i < |init| ensures key(init[i]) != key(last) {
        assert init[i] == s[i];
      }
      assert key(last) !in KeySet(init, key);
      calc {
        Dedup(s, key);
        init + [last];
        s;
      }
    }
  }

  /**
   * remove_duplicates keeps a subsequence of its input, with one record per
   * key, covering every key of the input, each being the first record with
   * that key; applied to its own output it changes nothing.
   */
  lemma DedupSpec(s: seq<Opportunity>)
    ensures IsSubsequence(Dedup(s, Key), s)
    ensures DistinctKeys(Dedup(s, Key), Key)
    ensures KeySet(Dedup(s, Key), Key) == KeySet(s, Key)
    ensures forall j :: 0 <= j < |Dedup(s, Key)| ==>
      && Key(Dedup(s, Key)[j]) in KeySet(s, Key)
      && Dedup(s, Key)[j] == s[FirstIndex(s, Key, Key(Dedup(s, Key)[j]))]
    ensures Dedup(Dedup(s, Key), Key) == Dedup(s, Key)
  {
    DedupSubsequence(s, Key);
    DedupDistinct(s, Key);
    DedupKeys(s, Key);
    DedupKeepsFirst(s, Key);
    DedupOfDistinct(Dedup(s, Key), Key);
  }

  // ----- Tallies -----

  /** How many items of s have f-value k. */
  function Occurrences<T>(s: seq<T>, f: T -> string, k: string): nat {
    if s == [] then 0
    else Occurrences(s[..|s| - 1], f, k) + (if f(s[|s| - 1]) == k then 1 else 0)
  }

  /** The positions of s whose item has f-value k. */
  function Positions<T>(s: seq<T>, f: T -> string, k: string): set<nat> {
    set i: nat | i < |s| && f(s[i]) == k
  }

  /** The running count is the number of positions holding k, so at most |s|. */
  lemma {:induction false} OccurrencesArePositions<T>(s: seq<T>, f: T -> string, k: string)
    ensures Occurrences(s, f, k) == |Positions(s, f, k)|
    ensures Occurrences(s, f, k) <= |s|
    decreases |s|
  {
    if s != [] {
      var n := |s| - 1;
      var init := s[..n];
      OccurrencesArePositions(init, f, k);
      assert n !in Positions(init, f, k);
      assert Positions(s, f, k) == Positions(init, f, k) + (if f(s[n]) == k then {n} else {}) by {
        forall i: nat | i < n ensures s[i] == init[i] {}
      }
    }
  }

  /** A dict of counters filled one item at a time, as `d[k] = d.get(k, 0) + 1` does. */
  function Tally<T>(s: seq<T>, f: T -> string): map<string, nat> {
    if s == [] then map[]
    else
      var m := Tally(s[..|s| - 1], f);
      var k := f(s[|s| - 1]);
      m[k := (if k in m then m[k] else 0) + 1]
  }

  /** The sum of the counters of a tally. */
  ghost function SumValues(m: map<string, nat>): nat
    decreases |m|
  {
    if m == map[] then 0
    else
      var k :| k in m;
      assert |m - {k}| < |m| by { assert (m - {k}).Keys == m.Keys - {k}; }
      m[k] + SumValues(m - {k})
  }

  /** The sum does not depend on which key is taken first. */
  lemma {:induction false} SumValuesPick(m: map<string, nat>, k: string)
    requires k in m
    ensures SumValues(m) == m[k] + SumValues(m - {k})
    decreases |m|
  {
    var j :| j in m && SumValues(m) == m[j] + SumValues(m - {j});
    if j != k {
      assert (m - {j}).Keys == m.Keys - {j};
      assert (m - {k}).Keys == m.Keys - {k};
      SumValuesPick(m - {j}, k);
      SumValuesPick(m - {k}, j);
      assert m - {j} - {k} == m - {k} - {j};
    }
  }

  /** Some item of s has f-value k. */
  predicate HasValue<T>(s: seq<T>, f: T -> string, k: string) {
    exists i :: 0 <= i < |s| && f(s[i]) == k
  }

  /** A tally has a counter for exactly the values that occur, each counting its occurrences. */
  lemma {:induction false} TallyCounts<T>(s: seq<T>, f: T -> string)
    ensures forall k :: k in Tally(s, f) <==> HasValue(s, f, k)
    ensures forall k :: k in Tally(s, f) ==> Tally(s, f)[k] == Occurrences(s, f, k)
    decreases |s|
  {
    if s != [] {
      var init := s[..|s| - 1];
      TallyCounts(init, f);
      forall k ensures HasValue(s, f, k) <==> HasValue(init, f, k) || k == f(s[|s| - 1]) {
        if HasValue(s, f, k) {
          var i :| 0 <= i < |s| && f(s[i]) == k;
          if i < |init| { assert init[i] == s[i]; }
        }
        if HasValue(init, f, k) {
          var i :| 0 <= i < |init| && f(init[i]) == k;
          assert init[i] == s[i];
        }
      }
      forall k | k !in Tally(init, f) ensures Occurrences(init, f, k) == 0 {
        OccurrencesAbsent(init, f, k);
      }
    }
  }

  lemma {:induction false} OccurrencesAbsent<T>(s: seq<T>, f: T -> string, k: string)
    requires forall i :: 0 <= i < |s| ==> f(s[i]) != k
    ensures Occurrences(s, f, k) == 0
    decreases |s|
  {
    if s != [] {
      var init := s[..|s| - 1];
      forall i | 0 <= i < |init| ensures f(init[i]) != k { assert init[i] == s[i]; }
      OccurrencesAbsent(init, f, k);
    }
  }

  /** The counters of a tally add up to the number of items counted. */
  lemma {:induction false} TallySum<T>(s: seq<T>, f: T -> string)
    ensures SumValues(Tally(s, f)) == |s|
    decreases |s|
  {
    if s != [] {
      var init := s[..|s| - 1];
      var k := f(s[|s| - 1]);
      var m := Tally(init, f);
      TallySum(init, f);
      var m' := m[k := (if k in m then m[k] else 0) + 1];
      SumValuesPick(m', k);
      if k in m {
        SumValuesPick(m, k);
        assert m' - {k} == m - {k};
      } else {
        assert m' - {k} == m;
      }
    }
  }

  // ----- save_opportunities -----

  /** The per-source counters of the metadata block. */
  datatype SourceCounts = SourceCounts(topclassactions: nat, ftc: nat, cpsc: nat)

  datatype Metadata = Metadata(
    lastUpdated: string,
    totalCount: nat,
    sources: SourceCounts,
    byCategory: map<string, nat>,
    byState: map<string, nat>)

  /** The document written to data/opportunities.json: an object, not a bare array. */
  datatype Output = Output(opportunities: seq<Opportunity>, metadata: Metadata)

  /** `opp.get('category', 'Other')` */
  function CategoryOf(o: Opportunity): string { o.category.GetOr("Other") }

  /** `opp.get('state', 'Unknown')` */
  function StateOf(o: Opportunity): string { o.state.GetOr("Unknown") }

  function SourceOf(o: Opportunity): string { o.source }

  /** The list comprehension `len([o for o in s if o['source'] == src])`. */
  function CountSource(s: seq<Opportunity>, src: string): (n: nat)
    ensures n <= |s|
    ensures n == |set i: nat | i < |s| && s[i].source == src|
  {
    OccurrencesArePositions(s, SourceOf, src);
    assert Positions(s, SourceOf, src) == set i: nat | i < |s| && s[i].source == src;
    Occurrences(s, SourceOf, src)
  }

  /** What save_opportunities writes, given the timestamp it stamps. */
  function Summarize(opportunities: seq<Opportunity>, lastUpdated: string): Output {
    var unique := Dedup(opportunities, Key);
    Output(unique, Metadata(
      lastUpdated,
      |unique|,
      SourceCounts(
        CountSource(unique, "topclassactions.com"),
        CountSource(unique, "ftc.gov"),
        CountSource(unique, "cpsc.gov")),
      Tally(unique, CategoryOf),
      Tally(unique, StateOf)))
  }

  /** The counting loop of save_opportunities: one counter per category and one per state. */
  method CountCategoriesAndStates(unique: seq<Opportunity>)
    returns (byCategory: map<string, nat>, byState: map<string, nat>)
    ensures byCategory == Tally(unique, CategoryOf)
    ensures byState == Tally(unique, StateOf)
  {
    byCategory, byState := map[], map[];
    for i := 0 to |unique|
      invariant byCategory == Tally(unique[..i], CategoryOf)
      invariant byState == Tally(unique[..i], StateOf)
    {
      var opp := unique[i];
      assert unique[..i + 1][..i] == unique[..i];
      var cat := CategoryOf(opp);
      byCategory := byCategory[cat := (if cat in byCategory then byCategory[cat] else 0) + 1];
      var state := StateOf(opp);
      byState := byState[state := (if state in byState then byState[state] else 0) + 1];
    }
    assert unique[..|unique|] == unique;
  }

  /** save_opportunities without the file write: dedup, then the counters. */
  method SaveOpportunities(opportunities: seq<Opportunity>, lastUpdated: string) returns (output: Output)
    ensures output == Summarize(opportunities, lastUpdated)
  {
    var unique := RemoveDuplicates(opportunities);
    var byCategory, byState := CountCategoriesAndStates(unique);
    output := Output(unique, Metadata(
      lastUpdated,
      |unique|,
      SourceCounts(
        CountSource(unique, "topclassactions.com"),
        CountSource(unique, "ftc.gov"),
        CountSource(unique, "cpsc.gov")),
      byCategory,
      byState));
  }

  /**
   * The metadata agrees with the records written: the total is their
   * number, the category and state counters each add up to it, a record
   * without a category is counted under "Other" and one without a state
   * under "Unknown", and no source counter exceeds the total.
   */
  lemma SummaryConsistent(opportunities: seq<Opportunity>, lastUpdated: string)
    ensures var out := Summarize(opportunities, lastUpdated);
      && out.metadata.totalCount == |out.opportunities|
      && SumValues(out.metadata.byCategory) == out.metadata.totalCount
      && SumValues(out.metadata.byState) == out.metadata.totalCount
      && (forall o :: o in out.opportunities && o.category.None? ==> "Other" in out.metadata.byCategory)
      && (forall o :: o in out.opportunities && o.state.None? ==> "Unknown" in out.metadata.byState)
      && (forall c :: c in out.metadata.byCategory ==>
            out.metadata.byCategory[c] == Occurrences(out.opportunities, CategoryOf, c))
      && out.metadata.sources.topclassactions <= out.metadata.totalCount
      && out.metadata.sources.ftc <= out.metadata.totalCount
      && out.metadata.sources.cpsc <= out.metadata.totalCount
  {
    var unique := Dedup(opportunities, Key);
    TallySum(unique, CategoryOf);
    TallySum(unique, StateOf);
    TallyCounts(unique, CategoryOf);
    TallyCounts(unique, StateOf);
    forall o | o in unique && o.category.None? ensures "Other" in Tally(unique, CategoryOf) {
      var i :| 0 <= i < |unique| && unique[i] == o;
      assert CategoryOf(unique[i]) == "Other";
    }
    forall o | o in unique && o.state.None? ensures "Unknown" in Tally(unique, StateOf) {
      var i :| 0 <= i < |unique| && unique[i] == o;
      assert StateOf(unique[i]) == "Unknown";
    }
  }

  // ----- run_all_scrapers -----

  /** What one scraper call did: raised an exception, or returned its records. */
  datatype ScraperRun = Raised | Returned(records: seq<Opportunity>)

  /** What a scraper call adds to the combined list: nothing when it raised. */
  function Contribution(run: ScraperRun): seq<Opportunity> {
    match run
    case Raised => []
    case Returned(records) => records
  }

  /**
   * run_all_scrapers: the three scrapers in the order TopClassActions, FTC,
   * CPSC, each inside its own try block; nothing is saved and None is
   * returned when the combined list is empty.
   */
  method RunAllScrapers(tca: ScraperRun, ftc: ScraperRun, cpsc: ScraperRun, lastUpdated: string)
    returns (result: Option<Output>)
    ensures result.None? <==> Contribution(tca) + Contribution(ftc) + Contribution(cpsc) == []
    ensures result.Some? ==>
      result.value == Summarize(Contribution(tca) + Contribution(ftc) + Contribution(cpsc), lastUpdated)
  {
    var all: seq<Opportunity> := [];
    if tca.Returned? {
      all := all + tca.records;
    }
    assert all == Contribution(tca);
    if ftc.Returned? {
      all := all + ftc.records;
    }
    assert all == Contribution(tca) + Contribution(ftc);
    if cpsc.Returned? {
      all := all + cpsc.records;
    }
    assert all == Contribution(tca) + Contribution(ftc) + Contribution(cpsc);
    if all == [] {
      return None;
    }
    var output := SaveOpportunities(all, lastUpdated);
    return Some(output);
  }

  /**
   * Deduplicating a concatenation keeps every key of both parts, and a key
   * of the first part is kept with the first part's first item.
   */
  lemma DedupConcat<T>(a: seq<T>, b: seq<T>, key: T -> string)
    ensures KeySet(Dedup(a + b, key), key) == KeySet(a, key) + KeySet(b, key)
    ensures forall j :: 0 <= j < |Dedup(a + b, key)| && key(Dedup(a + b, key)[j]) in KeySet(a, key) ==>
      Dedup(a + b, key)[j] == a[FirstIndex(a, key, key(Dedup(a + b, key)[j]))]
  {
    var c := a + b;
    var out := Dedup(c, key);
    DedupKeys(c, key);
    DedupKeepsFirst(c, key);
    forall i | 0 <= i < |c| ensures key(c[i]) in KeySet(a, key) + KeySet(b, key) {
      if i >= |a| { assert c[i] == b[i - |a|]; }
    }
    forall k | k in KeySet(a, key) + KeySet(b, key) ensures k in KeySet(c, key) {
      if k in KeySet(a, key) {
        var i :| 0 <= i < |a| && key(a[i]) == k;
        assert c[i] == a[i];
      } else {
        var i :| 0 <= i < |b| && key(b[i]) == k;
        assert c[|a| + i] == b[i];
      }
    }
    forall j | 0 <= j < |out| && key(out[j]) in KeySet(a, key)
      ensures out[j] == a[FirstIndex(a, key, key(out[j]))]
    {
      var k := key(out[j]);
      var f := FirstIndex(a, key, k);
      assert c[f] == a[f];
      forall i | 0 <= i < f ensures key(c[i]) != k { assert c[i] == a[i]; }
      FirstIndexUnique(c, key, k, f);
    }
  }

  /**
   * A scraper that raises costs only its own records: when FTC raises,
   * every title key that TopClassActions or CPSC returned is in the saved
   * output, and a key that TopClassActions returned keeps TopClassActions'
   * first record with it.
   */
  lemma FailureIsolation(tca: seq<Opportunity>, cpsc: seq<Opportunity>, lastUpdated: string)
    ensures var out := Summarize(Contribution(Returned(tca)) + Contribution(Raised) + Contribution(Returned(cpsc)), lastUpdated).opportunities;
      && KeySet(out, Key) == KeySet(tca, Key) + KeySet(cpsc, Key)
      && (forall j :: 0 <= j < |out| && Key(out[j]) in KeySet(tca, Key) ==>
            out[j] == tca[FirstIndex(tca, Key, Key(out[j]))])
  {
    var combined := Contribution(Returned(tca)) + Contribution(Raised) + Contribution(Returned(cpsc));
    assert combined == tca + cpsc;
    assert Summarize(combined, lastUpdated).opportunities == Dedup(tca + cpsc, Key);
    DedupConcat(tca, cpsc, Key);
  }
}
