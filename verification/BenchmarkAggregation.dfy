/** Aggregation of independent benchmark attempts.  The first attempt's record is
    overwritten with the aggregate, and a noisy scenario is aggregated a second time over
    the same list with confirmation attempts appended. */
module BenchmarkAggregation {
  import opened Wrappers
  import opened BenchmarkStatistics

  datatype Language = Spectra | Go | Rust

  const LANGUAGES: seq<Language> := [Spectra, Go, Rust]

  /** One language's entry of a result table; `ns_per_iter` is absent after a failure. */
  datatype Measurement = Measurement(
    nsPerIter: Option<int>,
    error: Option<string>,
    independentMedians: seq<int>,
    stableMedians: seq<int>,
    outlierMedians: seq<int>,
    independentStddev: Option<nat>)

  type Results = map<Language, Measurement>

  const ATTEMPT_FAILED := Measurement(None, Some("independent attempt failed"), [], [], [], None)

  // ----- one language over all attempts -----

  /** `attempt.get("results", {}).get(language, {}).get("ns_per_iter")` */
  function Sample(results: Results, language: Language): Option<int> {
    if language in results then results[language].nsPerIter else None
  }

  function Samples(table: seq<Results>, language: Language): (r: seq<Option<int>>)
    ensures |r| == |table|
    ensures forall i :: 0 <= i < |table| ==> r[i] == Sample(table[i], language)
  {
    seq(|table|, i requires 0 <= i < |table| => Sample(table[i], language))
  }

  predicate AllMeasured(samples: seq<Option<int>>) {
    forall i :: 0 <= i < |samples| ==> samples[i].Some?
  }

  function Values(samples: seq<Option<int>>): (r: seq<int>)
    requires AllMeasured(samples)
    ensures |r| == |samples|
    ensures forall i :: 0 <= i < |r| ==> samples[i] == Some(r[i])
  {
    seq(|samples|, i requires 0 <= i < |samples| => samples[i].value)
  }

  /** How many samples to trim from each end, as a function of their number; the source
      computes `max(1, ceil(0.20 n))` in floating point. */
  type TrimCount = nat -> nat

  predicate Trims(n: nat, trim: TrimCount) {
    n >= 5 && 2 * trim(n) + 3 <= n
  }

  function StableMedians(medians: seq<int>, trim: TrimCount): (r: seq<int>)
    ensures medians != [] ==> r != []
  {
    var n := |medians|;
    if Trims(n, trim) then Trimmed(Sorted(medians), trim(n)) else medians
  }

  function Outliers(medians: seq<int>, trim: TrimCount): seq<int> {
    var n := |medians|;
    if Trims(n, trim) then Sorted(medians)[..trim(n)] + Sorted(medians)[n - trim(n)..] else []
  }

  function Stddev(samples: seq<int>): nat
    requires samples != []
  {
    VarianceHasDenominator(samples);
    VarianceIsNonNegative(samples);
    RootFloor(Variance(samples))
  }

  /** The aggregate of one language; `base` is the first attempt's entry, whose other
      fields are kept. */
  function AggregateLanguage(samples: seq<Option<int>>, base: Measurement, trim: TrimCount): Measurement
    requires samples != []
  {
    if !AllMeasured(samples) then ATTEMPT_FAILED
    else
      var medians := Values(samples);
      var stable := StableMedians(medians, trim);
      base.(nsPerIter := Some(Halved(Median(stable))),
            independentMedians := medians,
            stableMedians := stable,
            outlierMedians := Outliers(medians, trim),
            independentStddev := Some(Stddev(stable)))
  }

  function BaseOf(results: Results, language: Language): Measurement {
    if language in results then results[language] else ATTEMPT_FAILED
  }

  function AggregateResults(table: seq<Results>, trim: TrimCount): (r: Results)
    requires table != []
  {
    map language: Language | language in LANGUAGES ::
      AggregateLanguage(Samples(table, language), BaseOf(table[0], language), trim)
  }

  // ----- the records on the heap -----

  datatype Snapshot = Snapshot(results: Results, correctnessPassed: bool)

  class Attempt {
    var results: Results
    var correctnessPassed: bool
    var independentRuns: nat
    var independentAttempts: seq<Snapshot>

    constructor (results: Results, correctnessPassed: bool)
      ensures this.results == results && this.correctnessPassed == correctnessPassed
    {
      this.results := results;
      this.correctnessPassed := correctnessPassed;
      this.independentRuns := 0;
      this.independentAttempts := [];
    }
  }

  ghost function Tables(attempts: seq<Attempt>): (r: seq<Results>)
    reads attempts
    ensures |r| == |attempts|
    ensures forall i :: 0 <= i < |r| ==> r[i] == attempts[i].results
  {
    seq(|attempts|, i requires 0 <= i < |attempts| reads attempts => attempts[i].results)
  }

  ghost function Flags(attempts: seq<Attempt>): (r: seq<bool>)
    reads attempts
    ensures |r| == |attempts|
    ensures forall i :: 0 <= i < |r| ==> r[i] == attempts[i].correctnessPassed
  {
    seq(|attempts|, i requires 0 <= i < |attempts| reads attempts => attempts[i].correctnessPassed)
  }

  predicate AllTrue(flags: seq<bool>) {
    forall i :: 0 <= i < |flags| ==> flags[i]
  }

  lemma OneFlag(flags: seq<bool>)
    requires |flags| == 1
    ensures flags == [AllTrue(flags)] + flags[1..]
  {
    assert flags[0] == AllTrue(flags);
  }

  method GatherSamples(attempts: seq<Attempt>, language: Language) returns (samples: seq<Option<int>>)
    ensures samples == Samples(Tables(attempts), language)
  {
    samples := [];
    for i := 0 to |attempts|
      invariant samples == Samples(Tables(attempts)[..i], language)
    {
      var results := attempts[i].results;
      samples := samples + [if language in results then results[language].nsPerIter else None];
    }
  }

  /** The loop over the languages. */
  method AggregateTables(attempts: seq<Attempt>, trim: TrimCount) returns (results: Results)
    requires attempts != []
    ensures results == AggregateResults(Tables(attempts), trim)
  {
    results := map[];
    var base := attempts[0].results;
    ghost var whole := AggregateResults(Tables(attempts), trim);
    for i := 0 to |LANGUAGES|
      invariant results.Keys == set language | language in LANGUAGES[..i]
      invariant forall language :: language in results ==> results[language] == whole[language]
    {
      var language := LANGUAGES[i];
      var samples := GatherSamples(attempts, language);
      results := results[language := AggregateLanguage(samples, BaseOf(base, language), trim)];
    }
    assert LANGUAGES[..|LANGUAGES|] == LANGUAGES;
  }

  /** `all(attempt.get("correctness_passed", False) for attempt in attempts)` */
  method AllCorrect(attempts: seq<Attempt>) returns (correct: bool)
    ensures correct == AllTrue(Flags(attempts))
  {
    correct := true;
    for i := 0 to |attempts|
      invariant correct == AllTrue(Flags(attempts)[..i])
    {
      correct := correct && attempts[i].correctnessPassed;
    }
    assert Flags(attempts)[..|attempts|] == Flags(attempts);
  }

  method TakeSnapshots(attempts: seq<Attempt>) returns (snapshots: seq<Snapshot>)
    ensures |snapshots| == |attempts|
    ensures forall i :: 0 <= i < |attempts| ==>
              snapshots[i] == Snapshot(Tables(attempts)[i], Flags(attempts)[i])
  {
    snapshots := [];
    for i := 0 to |attempts|
      invariant |snapshots| == i
      invariant forall j :: 0 <= j < i ==> snapshots[j] == Snapshot(Tables(attempts)[j], Flags(attempts)[j])
    {
      snapshots := snapshots + [Snapshot(attempts[i].results, attempts[i].correctnessPassed)];
    }
  }

  /** `aggregate_scenario_attempts`: the aggregate is written into the first record, which
      is also what is returned.  The kept list of attempts is filled in after the first
      record's table was replaced, so its first element shows the aggregate. */
  method Aggregate(attempts: seq<Attempt>, trim: TrimCount) returns (entry: Attempt)
    requires attempts != []
    requires forall i :: 0 < i < |attempts| ==> attempts[i] != attempts[0]
    modifies attempts[0]
    ensures entry == attempts[0]
    ensures entry.independentRuns == |attempts|
    ensures Tables(attempts) == [FirstRound(old(Tables(attempts)), trim)] + old(Tables(attempts))[1..]
    ensures Flags(attempts) == [AllTrue(old(Flags(attempts)))] + old(Flags(attempts))[1..]
    ensures |attempts| == 1 ==> entry.independentAttempts == old(entry.independentAttempts)
    ensures |attempts| > 1 ==>
              && |entry.independentAttempts| == |attempts|
              && entry.independentAttempts[0] == Snapshot(entry.results, old(entry.correctnessPassed))
              && forall i :: 0 < i < |attempts| ==>
                   entry.independentAttempts[i] == Snapshot(old(Tables(attempts))[i], old(Flags(attempts))[i])
  {
    entry := attempts[0];
    if |attempts| == 1 {
      entry.independentRuns := 1;
      OneFlag(Flags(attempts));
      return;
    }
    ghost var tables, flags := Tables(attempts), Flags(attempts);
    var results := AggregateTables(attempts, trim);
    var correct := AllCorrect(attempts);
    entry.results := results;
    entry.independentRuns := |attempts|;
    entry.independentAttempts := TakeSnapshots(attempts);
    entry.correctnessPassed := correct;
    HeadReplaced(tables, Tables(attempts), results);
    HeadReplaced(flags, Flags(attempts), correct);
  }

  lemma HeadReplaced<T>(before: seq<T>, after: seq<T>, head: T)
    requires |before| == |after| > 0 && after[0] == head
    requires forall i :: 0 < i < |before| ==> after[i] == before[i]
    ensures after == [head] + before[1..]
  {
  }

  /** The confirm-and-reaggregate branch of `main`: a second aggregation over the same list,
      whose first record now holds the first aggregate, with confirmations appended. */
  method AggregateAgain(attempts: seq<Attempt>, confirmations: seq<Attempt>, trim: TrimCount,
                        ghost tables: seq<Results>, ghost flags: seq<bool>)
    returns (entry: Attempt)
    requires |attempts| == |tables| == |flags| > 0
    requires forall i :: 0 < i < |attempts| ==> attempts[i] != attempts[0]
    requires attempts[0] !in confirmations
    requires Tables(attempts) == [FirstRound(tables, trim)] + tables[1..]
    requires Flags(attempts) == [AllTrue(flags)] + flags[1..]
    modifies attempts[0]
    ensures entry == attempts[0]
    ensures |attempts| + |confirmations| == 1 ==> entry.results == tables[0]
    ensures |attempts| + |confirmations| > 1 ==>
              entry.results == AggregateResults(
                [FirstRound(tables, trim)] + tables[1..] + old(Tables(confirmations)), trim)
    ensures entry.correctnessPassed == AllTrue(flags + old(Flags(confirmations)))
  {
    var all := attempts + confirmations;
    assert Tables(all) == Tables(attempts) + Tables(confirmations);
    assert Flags(all) == Flags(attempts) + Flags(confirmations);
    FlagsAgain(flags, Flags(confirmations), AllTrue(flags));
    entry := Aggregate(all, trim);
    assert entry.results == Tables(all)[0] && entry.correctnessPassed == Flags(all)[0];
  }

  /** The part of `main` that aggregates a scenario, and aggregates it again with the
      confirmation attempts appended when the first aggregate is noisy or slow. */
  method AggregateScenario(attempts: seq<Attempt>, confirmations: seq<Attempt>, confirm: bool, trim: TrimCount)
    returns (entry: Attempt)
    requires attempts != []
    requires forall i :: 0 < i < |attempts| ==> attempts[i] != attempts[0]
    requires attempts[0] !in confirmations
    modifies attempts[0]
    ensures entry == attempts[0]
    ensures var tables := old(Tables(attempts)) + if confirm then old(Tables(confirmations)) else [];
            && (|tables| == 1 ==> entry.results == tables[0])
            && (|tables| > 1 ==> ShowsEveryFailure(entry.results, tables))
    ensures entry.correctnessPassed
         == AllTrue(old(Flags(attempts)) + if confirm then old(Flags(confirmations)) else [])
  {
    ghost var tables, flags := Tables(attempts), Flags(attempts);
    entry := Aggregate(attempts, trim);
    if confirm {
      MeasuredAgain(tables, Tables(confirmations), trim);
      entry := AggregateAgain(attempts, confirmations, trim, tables, flags);
    } else {
      MeasuredWhenAll(tables, trim);
      assert tables + [] == tables && flags + [] == flags;
      assert entry.results == Tables(attempts)[0] && entry.correctnessPassed == Flags(attempts)[0];
    }
  }

  /** The table of the first record after the first aggregation. */
  function FirstRound(tables: seq<Results>, trim: TrimCount): Results
    requires tables != []
  {
    if |tables| == 1 then tables[0] else AggregateResults(tables, trim)
  }

  // ----- no failed attempt is hidden -----

  /** A language has a value exactly when every attempt measured it. */
  ghost predicate ShowsEveryFailure(results: Results, tables: seq<Results>) {
    forall language :: Sample(results, language).Some? <==> AllMeasured(Samples(tables, language))
  }

  /** A language has an aggregate exactly when every attempt measured it. */
  lemma MeasuredWhenAll(tables: seq<Results>, trim: TrimCount)
    requires tables != []
    ensures ShowsEveryFailure(AggregateResults(tables, trim), tables)
    ensures ShowsEveryFailure(FirstRound(tables, trim), tables)
  {
    forall language
      ensures Sample(AggregateResults(tables, trim), language).Some? <==> AllMeasured(Samples(tables, language))
    {
      assert language in LANGUAGES by {
        if language == Spectra {
          assert LANGUAGES[0] == language;
        } else if language == Go {
          assert LANGUAGES[1] == language;
        } else {
          assert LANGUAGES[2] == language;
        }
      }
    }
    forall language
      ensures Sample(FirstRound(tables, trim), language).Some? <==> AllMeasured(Samples(tables, language))
    {
      if |tables| == 1 {
        assert Samples(tables, language)[0] == Sample(tables[0], language);
      }
    }
  }

  /** Overwriting the first table with the first aggregate keeps every failure visible. */
  lemma SamplesAgain(tables: seq<Results>, more: seq<Results>, trim: TrimCount)
    requires tables != []
    ensures var again := [FirstRound(tables, trim)] + tables[1..] + more;
            forall language ::
              AllMeasured(Samples(again, language)) <==> AllMeasured(Samples(tables + more, language))
  {
    var again := [FirstRound(tables, trim)] + tables[1..] + more;
    MeasuredWhenAll(tables, trim);
    forall language
      ensures AllMeasured(Samples(again, language)) <==> AllMeasured(Samples(tables + more, language))
    {
      OneLanguageAgain(FirstRound(tables, trim), tables, more, language);
    }
  }

  /** After both aggregations a language has an aggregate exactly when every attempt,
      confirmations included, measured it. */
  lemma MeasuredAgain(tables: seq<Results>, more: seq<Results>, trim: TrimCount)
    requires tables != []
    ensures var again := [FirstRound(tables, trim)] + tables[1..] + more;
            ShowsEveryFailure(AggregateResults(again, trim), tables + more)
  {
    SamplesAgain(tables, more, trim);
    MeasuredWhenAll([FirstRound(tables, trim)] + tables[1..] + more, trim);
  }

  lemma OneLanguageAgain(first: Results, tables: seq<Results>, more: seq<Results>, language: Language)
    requires tables != []
    requires Sample(first, language).Some? <==> AllMeasured(Samples(tables, language))
    ensures AllMeasured(Samples([first] + tables[1..] + more, language))
       <==> AllMeasured(Samples(tables + more, language))
  {
    var x, y := Samples([first] + tables[1..] + more, language), Samples(tables + more, language);
    var z := Samples(tables, language);
    assert forall i :: 0 < i < |x| ==> x[i] == y[i];
    assert forall i :: 0 <= i < |tables| ==> y[i] == z[i];
    assert x[0] == Sample(first, language);
  }

  lemma FlagsAgain(flags: seq<bool>, more: seq<bool>, ok: bool)
    requires flags != [] && ok == AllTrue(flags)
    ensures AllTrue([ok] + flags[1..] + more) == AllTrue(flags + more)
  {
    var x, y := [ok] + flags[1..] + more, flags + more;
    assert forall i :: 0 < i < |x| ==> x[i] == y[i];
    assert forall i :: 0 <= i < |flags| ==> y[i] == flags[i];
    assert x[0] == ok;
  }

  // ----- what is reported -----

  /** Trimming changes neither the reported median nor, upwards, the reported deviation. */
  lemma TrimmingIsHonest(medians: seq<int>, trim: TrimCount)
    requires medians != []
    ensures Median(StableMedians(medians, trim)) == Median(medians)
    ensures Stddev(StableMedians(medians, trim)) <= Stddev(medians)
  {
    var n, stable := |medians|, StableMedians(medians, trim);
    if Trims(n, trim) {
      var ordered := Sorted(medians);
      TrimmingKeepsMedian(medians, trim(n));
      SortedSorts(medians);
      TrimmingShrinksVariance(ordered, trim(n));
      VarianceIgnoresOrder(medians);
      VarianceHasDenominator(stable);
      VarianceHasDenominator(medians);
      VarianceIsNonNegative(stable);
      VarianceIsNonNegative(medians);
      RootIsMonotone(Variance(stable), Variance(medians));
    }
  }

  lemma ReportedMedian(samples: seq<Option<int>>, base: Measurement, trim: TrimCount)
    requires samples != [] && AllMeasured(samples)
    ensures AggregateLanguage(samples, base, trim).nsPerIter == Some(Halved(Median(Values(samples))))
  {
    TrimmingIsHonest(Values(samples), trim);
  }

  /** The second aggregation does not see the first attempt's own sample any more: the
      samples it lists are the original ones exactly when that sample was the median. */
  lemma SecondRoundSamples(tables: seq<Results>, more: seq<Results>, language: Language, trim: TrimCount)
    requires |tables| > 1
    requires AllMeasured(Samples(tables, language)) && AllMeasured(Samples(more, language))
    ensures var again := Samples([FirstRound(tables, trim)] + tables[1..] + more, language);
            var raw := Samples(tables + more, language);
            && AllMeasured(again) && AllMeasured(raw)
            && Values(again) == [Halved(Median(Values(Samples(tables, language))))] + Values(raw)[1..]
            && (Values(again) == Values(raw)
                <==> Values(raw)[0] == Halved(Median(Values(Samples(tables, language)))))
  {
    var first := FirstRound(tables, trim);
    FirstRoundSample(tables, language, trim);
    AgainAndRaw(first, tables, more, language);
    FirstReplaced(Samples([first] + tables[1..] + more, language), Samples(tables + more, language),
                  Halved(Median(Values(Samples(tables, language)))));
  }

  lemma FirstRoundSample(tables: seq<Results>, language: Language, trim: TrimCount)
    requires |tables| > 1 && AllMeasured(Samples(tables, language))
    ensures Sample(FirstRound(tables, trim), language) == Some(Halved(Median(Values(Samples(tables, language)))))
  {
    MeasuredWhenAll(tables, trim);
    assert language in FirstRound(tables, trim);
    ReportedMedian(Samples(tables, language), BaseOf(tables[0], language), trim);
  }

  lemma AgainAndRaw(first: Results, tables: seq<Results>, more: seq<Results>, language: Language)
    requires tables != [] && Sample(first, language).Some?
    requires AllMeasured(Samples(tables, language)) && AllMeasured(Samples(more, language))
    ensures var again, raw := Samples([first] + tables[1..] + more, language), Samples(tables + more, language);
            && AllMeasured(again) && AllMeasured(raw) && |again| == |raw| > 0
            && again[0] == Sample(first, language)
            && raw[0] == Samples(tables, language)[0]
            && forall i :: 0 < i < |again| ==> again[i] == raw[i]
  {
    var again, raw := Samples([first] + tables[1..] + more, language), Samples(tables + more, language);
    var initial, rest := Samples(tables, language), Samples(more, language);
    forall i | 0 <= i < |raw| ensures raw[i].Some? {
      assert raw[i] == if i < |tables| then initial[i] else rest[i - |tables|];
    }
  }

  lemma FirstReplaced(again: seq<Option<int>>, raw: seq<Option<int>>, m: int)
    requires AllMeasured(again) && AllMeasured(raw) && |again| == |raw| > 0 && again[0] == Some(m)
    requires forall i :: 0 < i < |again| ==> again[i] == raw[i]
    ensures Values(again) == [m] + Values(raw)[1..]
    ensures Values(again) == Values(raw) <==> Values(raw)[0] == m
  {
    assert forall i :: 0 < i < |raw| ==> Values(again)[i] == Values(raw)[i];
  }

  /** The value the second round reports, and exactly when its median is that of all raw
      samples.  With `m` the first round's value, `x` the first raw sample and `r` the others
      in order: when `m` and `x` clamp to the same value around the middle of `r`. */
  lemma SecondRoundMedian(tables: seq<Results>, more: seq<Results>, language: Language, trim: TrimCount)
    requires |tables| > 1
    requires AllMeasured(Samples(tables, language)) && AllMeasured(Samples(more, language))
    ensures var again, raw := [FirstRound(tables, trim)] + tables[1..] + more, Samples(tables + more, language);
            && AllMeasured(Samples(again, language)) && AllMeasured(raw)
            && var m := Halved(Median(Values(Samples(tables, language))));
               var x, r := Values(raw)[0], Sorted(Values(raw)[1..]);
               && Sample(AggregateResults(again, trim), language) == Some(Halved(MedianWith(m, r)))
               && Median(Values(raw)) == MedianWith(x, r)
               && (Median(Values(Samples(again, language))) == Median(Values(raw)) <==> Clamped(m, r) == Clamped(x, r))
  {
    var again, raw := [FirstRound(tables, trim)] + tables[1..] + more, Samples(tables + more, language);
    SecondRoundSamples(tables, more, language, trim);
    FirstExchanged(Halved(Median(Values(Samples(tables, language)))), Values(raw));
    ReportedAgain(again, language, trim);
  }

  /** With an odd number of samples the reported values agree under the same condition. */
  lemma SecondRoundReport(tables: seq<Results>, more: seq<Results>, language: Language, trim: TrimCount)
    requires |tables| > 1 && (|tables| + |more|) % 2 == 1
    requires AllMeasured(Samples(tables, language)) && AllMeasured(Samples(more, language))
    ensures var again, raw := [FirstRound(tables, trim)] + tables[1..] + more, Samples(tables + more, language);
            && AllMeasured(raw)
            && var m := Halved(Median(Values(Samples(tables, language))));
               var x, r := Values(raw)[0], Sorted(Values(raw)[1..]);
               Sample(AggregateResults(again, trim), language) == Some(Halved(Median(Values(raw))))
               <==> Clamped(m, r) == Clamped(x, r)
  {
    SecondRoundMedian(tables, more, language, trim);
    var raw := Values(Samples(tables + more, language));
    OneLess(raw, |tables| + |more|);
    SameReport(Halved(Median(Values(Samples(tables, language)))), raw[0], Sorted(raw[1..]));
  }

  lemma OneLess(raw: seq<int>, n: nat)
    requires |raw| == n && n % 2 == 1
    ensures |Sorted(raw[1..])| % 2 == 0
  {
  }

  lemma ReportedAgain(again: seq<Results>, language: Language, trim: TrimCount)
    requires again != [] && AllMeasured(Samples(again, language))
    ensures Sample(AggregateResults(again, trim), language) == Some(Halved(Median(Values(Samples(again, language)))))
  {
    EveryLanguage(language);
    ReportedMedian(Samples(again, language), BaseOf(again[0], language), trim);
  }

  lemma EveryLanguage(language: Language)
    ensures language in LANGUAGES
  {
    assert LANGUAGES[0] == Spectra && LANGUAGES[1] == Go && LANGUAGES[2] == Rust;
  }

  /** A result table in which only the one language was measured. */
  function Measured(ns: int): Results {
    map[Spectra := Measurement(Some(ns), None, [], [], [], None)]
  }

  function FirstTables(): seq<Results> { [Measured(1), Measured(5), Measured(9)] }

  function Confirmations(): seq<Results> { [Measured(2), Measured(3)] }

  /** Attempts of 1, 5 and 9 with confirmations of 2 and 3, for which the second round reports
      5 although the median of all five samples is 3. */
  lemma SecondRoundCanMoveTheMedian(trim: TrimCount)
    ensures var tables, more := FirstTables(), Confirmations();
            && AllMeasured(Samples(tables + more, Spectra))
            && Halved(Median(Values(Samples(tables + more, Spectra)))) == 3
            && Sample(AggregateResults([FirstRound(tables, trim)] + tables[1..] + more, trim), Spectra) == Some(5)
  {
    ExampleSamples();
    SecondRoundMedian(FirstTables(), Confirmations(), Spectra, trim);
    ExampleMedians();
    assert [1, 5, 9, 2, 3][1..] == [5, 9, 2, 3];
  }

  lemma ExampleSamples()
    ensures var tables, more := FirstTables(), Confirmations();
            && AllMeasured(Samples(tables, Spectra)) && AllMeasured(Samples(more, Spectra))
            && AllMeasured(Samples(tables + more, Spectra))
            && Values(Samples(tables, Spectra)) == [1, 5, 9]
            && Values(Samples(tables + more, Spectra)) == [1, 5, 9, 2, 3]
  {
    var tables, more := FirstTables(), Confirmations();
    assert Samples(tables, Spectra) == [Some(1), Some(5), Some(9)] && Samples(more, Spectra) == [Some(2), Some(3)];
    assert Samples(tables + more, Spectra) == [Some(1), Some(5), Some(9), Some(2), Some(3)];
  }

  lemma ExampleMedians()
    ensures Halved(Median([1, 5, 9])) == 5 && Sorted([5, 9, 2, 3]) == [2, 3, 5, 9]
    ensures Halved(MedianWith(5, [2, 3, 5, 9])) == 5 && Halved(MedianWith(1, [2, 3, 5, 9])) == 3
  {
    assert Sorted([1, 5, 9]) == [1, 5, 9];
  }
}
