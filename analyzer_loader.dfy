/** The loader of the Microsoft.Unity.Analyzers rules (`UnityAnalyzerLoader`):
    caches the analyzers found in the analyzer assembly, selects them by the
    category their UNT diagnostic numbers fall in, and lists every diagnostic
    they support once, ordered by id. */
module AnalyzerLoader {
  import opened Wrappers
  import opened Seqs
  import opened Text
  import opened Ordering

  /** Categories by range of UNT number: 1-15, 16-25, 26-35, 36 and above. */
  datatype AnalyzerCategory = All | Messages | NullChecking | Performance | BestPractices

  /** A diagnostic an analyzer supports, with the fields the discovery listing shows. */
  datatype Descriptor = Descriptor(
    id: string,
    title: string,
    description: string,
    category: string,
    severity: string,
    helpLink: string)

  datatype Analyzer = Analyzer(name: string, supportedDiagnostics: seq<Descriptor>)

  // ---------------------------------------------------------------- id ranges

  /** The id starts with "UNT" in any case. */
  predicate IsUntId(id: string) {
    StartsWithIgnoreCase(id, "UNT")
  }

  /** `IsInRange`: a UNT id at least four characters long whose remainder
      parses as a number between `min` and `max` inclusive. */
  predicate IsInRange(id: string, min: int, max: int) {
    IsUntId(id) && |id| >= 4 && ParseInt(id[3..]).Some? && min <= ParseInt(id[3..]).value <= max
  }

  /** An id of the form "UNT" (in any case), optional zeros and a number reads
      back as that number, so it is in a range exactly when its number is. */
  lemma RenderedIdInRange(prefix: string, zeros: string, n: nat, min: int, max: int)
    requires EqualsIgnoreCase(prefix, "UNT")
    requires forall i :: 0 <= i < |zeros| ==> zeros[i] == '0'
    requires n <= Int32Max
    ensures IsInRange(prefix + zeros + ShowNat(n), min, max) <==> min <= n <= max
  {
    var rest := zeros + ShowNat(n);
    UntPrefix(prefix, rest);
    assert prefix + zeros + ShowNat(n) == prefix + rest;
    DigitsValueLeadingZeros(zeros, ShowNat(n));
    ShowNatValue(n);
  }

  /** An id made of a "UNT" prefix, in any case, and a rest is a UNT id whose
      number part is that rest. */
  lemma UntPrefix(prefix: string, rest: string)
    requires EqualsIgnoreCase(prefix, "UNT")
    ensures IsUntId(prefix + rest) && |prefix| == 3 && (prefix + rest)[3..] == rest
  {
    var id := prefix + rest;
    assert |Lower(prefix)| == 3;
    assert id[..3] == prefix;
    assert Lower(id)[..3] == Lower(prefix) by {
      forall i | 0 <= i < 3 ensures Lower(id)[i] == Lower(prefix)[i] {
        assert id[i] == prefix[i];
      }
    }
  }

  /** The four category ranges never overlap. */
  lemma CategoryRangesDisjoint(id: string)
    ensures IsInRange(id, 1, 15) ==> !IsInRange(id, 16, 25) && !IsInRange(id, 26, 35) && !IsInRange(id, 36, Int32Max)
    ensures IsInRange(id, 16, 25) ==> !IsInRange(id, 26, 35) && !IsInRange(id, 36, Int32Max)
    ensures IsInRange(id, 26, 35) ==> !IsInRange(id, 36, Int32Max)
  {
  }

  /** Together the four ranges cover every UNT number from 1 up; 0 is in none. */
  lemma CategoryRangesCover(id: string)
    requires IsUntId(id) && |id| >= 4 && ParseInt(id[3..]).Some?
    ensures ParseInt(id[3..]).value >= 1 <==>
              IsInRange(id, 1, 15) || IsInRange(id, 16, 25) || IsInRange(id, 26, 35) || IsInRange(id, 36, Int32Max)
  {
  }

  // ---------------------------------------------------------------- selecting by category

  /** Some diagnostic of the analyzer has an id in the range. */
  predicate AnyInRange(a: Analyzer, min: int, max: int) {
    exists k :: 0 <= k < |a.supportedDiagnostics| && IsInRange(a.supportedDiagnostics[k].id, min, max)
  }

  /** The `category switch` of `GetAnalyzersByCategory`; `All` never reaches it
      and falls to the default arm. */
  predicate Matches(a: Analyzer, category: AnalyzerCategory) {
    match category
    case Messages => AnyInRange(a, 1, 15)
    case NullChecking => AnyInRange(a, 16, 25)
    case Performance => AnyInRange(a, 26, 35)
    case BestPractices => AnyInRange(a, 36, Int32Max)
    case All => false
  }

  function InCategory(category: AnalyzerCategory): Analyzer -> bool {
    (a: Analyzer) => Matches(a, category)
  }

  /** The analyzers `GetAnalyzersByCategory` returns out of `all`. */
  function ByCategory(all: seq<Analyzer>, category: AnalyzerCategory): seq<Analyzer> {
    if category == All then all else Filter(all, InCategory(category))
  }

  /** Selecting keeps exactly the analyzers of the category (every analyzer for
      `All`), and selects from the loaded ones only. */
  lemma ByCategoryMembers(all: seq<Analyzer>, category: AnalyzerCategory, a: Analyzer)
    ensures a in ByCategory(all, category) <==> a in all && (category == All || Matches(a, category))
    ensures |ByCategory(all, category)| <= |all|
  {
  }

  /** An analyzer with a single UNT diagnostic is selected by at most one of
      the four range categories. */
  lemma SingleDiagnosticInOneCategory(a: Analyzer, c1: AnalyzerCategory, c2: AnalyzerCategory)
    requires |a.supportedDiagnostics| == 1
    requires c1 != All && c2 != All
    requires Matches(a, c1) && Matches(a, c2)
    ensures c1 == c2
  {
    CategoryRangesDisjoint(a.supportedDiagnostics[0].id);
  }

  // ---------------------------------------------------------------- listing the diagnostics

  function IdOf(d: Descriptor): string {
    d.id
  }

  /** Every descriptor every analyzer supports, analyzer by analyzer. */
  function SupportedDescriptors(analyzers: seq<Analyzer>): seq<Descriptor> {
    if analyzers == [] then []
    else SupportedDescriptors(analyzers[..|analyzers| - 1]) + analyzers[|analyzers| - 1].supportedDiagnostics
  }

  /** What `GetAvailableDiagnostics` lists: the first descriptor of each id,
      ordered by id. */
  function AvailableDiagnostics(analyzers: seq<Analyzer>): seq<Descriptor> {
    SortBy(DistinctBy(SupportedDescriptors(analyzers), IdOf), IdOf)
  }

  /** The listing has each supported id exactly once, in strictly ascending
      order, and each entry is the first descriptor seen with its id. */
  lemma AvailableDiagnosticsListing(analyzers: seq<Analyzer>)
    ensures StrictlySortedBy(AvailableDiagnostics(analyzers), IdOf)
    ensures KeysOf(AvailableDiagnostics(analyzers), IdOf) == KeysOf(SupportedDescriptors(analyzers), IdOf)
    ensures forall k :: 0 <= k < |AvailableDiagnostics(analyzers)| ==>
              exists i :: 0 <= i < |SupportedDescriptors(analyzers)|
                          && SupportedDescriptors(analyzers)[i] == AvailableDiagnostics(analyzers)[k]
                          && FirstWithItsKey(SupportedDescriptors(analyzers), IdOf, i)
  {
    var all := SupportedDescriptors(analyzers);
    var distinct := DistinctBy(all, IdOf);
    var r := AvailableDiagnostics(analyzers);
    SortBySorted(distinct, IdOf);
    SortByKeys(distinct, IdOf);
    SortByDistinctIsStrict(distinct, IdOf);
    forall k | 0 <= k < |r|
      ensures exists i :: 0 <= i < |all| && all[i] == r[k] && FirstWithItsKey(all, IdOf, i)
    {
      assert r[k] in multiset(r);
      assert r[k] in distinct;
      DistinctByKeepsFirst(all, IdOf, r[k]);
    }
  }

  // ---------------------------------------------------------------- the loader

  /** The loader's state: the analyzers loaded so far, if any. The analyzers
      the assembly scan would find are passed to each operation, which uses
      them only when the cache is empty. */
  class AnalyzerLoader {
    var cachedAnalyzers: Option<seq<Analyzer>>

    constructor()
      ensures cachedAnalyzers == None
    {
      cachedAnalyzers := None;
    }

    /** `LoadAllAnalyzers`: the cached analyzers, or else what the assembly
        gives, which is then cached. */
    method LoadAllAnalyzers(fromAssembly: seq<Analyzer>) returns (r: seq<Analyzer>)
      modifies this
      ensures r == old(cachedAnalyzers).GetOr(fromAssembly)
      ensures cachedAnalyzers == Some(r)
    {
      if cachedAnalyzers.Some? {
        return cachedAnalyzers.value;
      }
      r := fromAssembly;
      cachedAnalyzers := Some(r);
    }

    /** `GetAnalyzersByCategory`: every loaded analyzer for `All`, otherwise
        those with a diagnostic in the category's range, in loading order. */
    method GetAnalyzersByCategory(category: AnalyzerCategory, fromAssembly: seq<Analyzer>)
      returns (r: seq<Analyzer>)
      modifies this
      ensures cachedAnalyzers == Some(old(cachedAnalyzers).GetOr(fromAssembly))
      ensures r == ByCategory(cachedAnalyzers.value, category)
    {
      if category == All {
        r := LoadAllAnalyzers(fromAssembly);
        return;
      }
      var allAnalyzers := LoadAllAnalyzers(fromAssembly);
      r := [];
      var i := 0;
      while i < |allAnalyzers|
        invariant 0 <= i <= |allAnalyzers|
        invariant r == Filter(allAnalyzers[..i], InCategory(category))
        modifies {}
      {
        var analyzer := allAnalyzers[i];
        assert allAnalyzers[..i + 1][..i] == allAnalyzers[..i];
        if Matches(analyzer, category) {
          r := r + [analyzer];
        }
        i := i + 1;
      }
      assert allAnalyzers[..i] == allAnalyzers;
    }

    /** `GetAvailableDiagnostics`: keeps the first descriptor of each id in a
        dictionary (enumerated in insertion order), then orders them by id. */
    method GetAvailableDiagnostics(fromAssembly: seq<Analyzer>) returns (r: seq<Descriptor>)
      modifies this
      ensures cachedAnalyzers == Some(old(cachedAnalyzers).GetOr(fromAssembly))
      ensures r == AvailableDiagnostics(cachedAnalyzers.value)
    {
      var analyzers := LoadAllAnalyzers(fromAssembly);
      var values := FirstDescriptorsById(analyzers);
      r := SortBy(values, IdOf);
    }

    /** `ClearCache`: the next load scans the assembly again. */
    method ClearCache()
      modifies this
      ensures cachedAnalyzers == None
    {
      cachedAnalyzers := None;
    }
  }

  /** The dictionary pass of `GetAvailableDiagnostics`: the values of a
      dictionary keyed by id that stores each descriptor whose id it does not
      hold yet, in insertion order. */
  method FirstDescriptorsById(analyzers: seq<Analyzer>) returns (values: seq<Descriptor>)
    ensures values == DistinctBy(SupportedDescriptors(analyzers), IdOf)
  {
    var diagnostics: map<string, Descriptor> := map[];
    values := [];
    var i := 0;
    while i < |analyzers|
      invariant 0 <= i <= |analyzers|
      invariant values == DistinctBy(SupportedDescriptors(analyzers[..i]), IdOf)
      invariant diagnostics.Keys == KeysOf(values, IdOf)
    {
      assert analyzers[..i + 1][..i] == analyzers[..i];
      diagnostics, values :=
        StoreNewIds(diagnostics, values, analyzers[i].supportedDiagnostics, SupportedDescriptors(analyzers[..i]));
      i := i + 1;
    }
    assert analyzers[..i] == analyzers;
  }

  /** The inner loop of the dictionary pass: stores the descriptors of one
      analyzer whose ids are not yet held. */
  method StoreNewIds(diagnostics: map<string, Descriptor>, values: seq<Descriptor>,
                     descriptors: seq<Descriptor>, ghost seen: seq<Descriptor>)
    returns (diagnostics': map<string, Descriptor>, values': seq<Descriptor>)
    requires values == DistinctBy(seen, IdOf) && diagnostics.Keys == KeysOf(values, IdOf)
    ensures values' == DistinctBy(seen + descriptors, IdOf)
    ensures diagnostics'.Keys == KeysOf(values', IdOf)
  {
    diagnostics', values' := diagnostics, values;
    var j := 0;
    assert seen + descriptors[..0] == seen;
    while j < |descriptors|
      invariant 0 <= j <= |descriptors|
      invariant values' == DistinctBy(seen + descriptors[..j], IdOf)
      invariant diagnostics'.Keys == KeysOf(values', IdOf)
    {
      var descriptor := descriptors[j];
      DistinctByStep(seen + descriptors[..j], descriptor);
      assert seen + descriptors[..j + 1] == (seen + descriptors[..j]) + [descriptor];
      if descriptor.id !in diagnostics' {
        KeysOfSnoc(values', descriptor, IdOf);
        diagnostics' := diagnostics'[descriptor.id := descriptor];
        values' := values' + [descriptor];
      }
      j := j + 1;
    }
    assert descriptors[..j] == descriptors;
  }

  /** One more descriptor is kept exactly when its id is new. */
  lemma DistinctByStep(s: seq<Descriptor>, x: Descriptor)
    ensures DistinctBy(s + [x], IdOf)
            == if x.id in KeysOf(DistinctBy(s, IdOf), IdOf) then DistinctBy(s, IdOf) else DistinctBy(s, IdOf) + [x]
  {
    assert (s + [x])[..|s|] == s;
  }
}
