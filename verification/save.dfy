/**
 * hpycc/save.py, `save_outputs`: which file name each dataset extracted from a
 * workunit's output is written under. The datasets arrive as (name, content)
 * pairs in output order; the CSV writing itself is not modelled.
 */
module Save {
  import opened Wrappers

  /** The two ways the name selection raises a `TypeError`. */
  datatype SaveError =
    | FilenamesNotIterable   // `zip_longest(None, …)`
    | PrefixOnMissingName    // `prefix + None`

  function Max(a: nat, b: nat): nat { if a < b then b else a }

  function Tail<T>(xs: seq<T>): seq<T> { if xs == [] then [] else xs[1..] }

  function Head<T>(xs: seq<T>): Option<T> { if xs == [] then None else Some(xs[0]) }

  /** `fn if fn else pfn`: a given, non-empty file name wins over the default. */
  function Pick(fn: Option<string>, pfn: Option<string>): Option<string>
  {
    if fn.Some? && fn.value != "" then fn else pfn
  }

  /** The default name of an output: `<dataset name>.csv`. */
  function DefaultName<T>(dataset: (string, T)): string
  {
    dataset.0 + ".csv"
  }

  /**
   * The comprehension over `zip_longest(filenames, parsed)`, pair by pair: the
   * list runs to the longer of the two, and a position with no usable name on
   * either side holds `None`.
   */
  function ChooseFilenames(filenames: seq<string>, parsed: seq<string>): (chosen: seq<Option<string>>)
    ensures |chosen| == Max(|filenames|, |parsed|)
    ensures forall i :: 0 <= i < |chosen| ==>
              chosen[i] == (if i < |filenames| && filenames[i] != "" then Some(filenames[i])
                            else if i < |parsed| then Some(parsed[i]) else None)
    decreases |filenames| + |parsed|
  {
    if filenames == [] && parsed == [] then []
    else [Pick(Head(filenames), Head(parsed))] + ChooseFilenames(Tail(filenames), Tail(parsed))
  }

  /** A prefix counts only when it is a non-empty string. */
  predicate Truthy(prefix: Option<string>)
  {
    prefix.Some? && prefix.value != ""
  }

  /**
   * `save_outputs` up to the writing loop: the (file name, content) pairs it
   * writes, in output order, or the error the name selection raises.
   */
  function SaveOutputs<T>(datasets: seq<(string, T)>, filenames: Option<seq<string>>, prefix: Option<string>)
    : (r: Result<seq<(string, T)>, SaveError>)
    ensures r == Failure(FilenamesNotIterable) <==> filenames.None?
    ensures r == Failure(PrefixOnMissingName) <==>
              filenames.Some? && Truthy(prefix)
              && exists i :: |datasets| <= i < |filenames.value| && filenames.value[i] == ""
    ensures r.Success? ==>
              var given := filenames.value;
              var lead := if Truthy(prefix) then prefix.value else "";
              && |r.value| == |datasets|
              && forall i :: 0 <= i < |datasets| ==>
                   && r.value[i].1 == datasets[i].1
                   && r.value[i].0 == lead + (if i < |given| && given[i] != "" then given[i] else DefaultName(datasets[i]))
  {
    if filenames.None? then Failure(FilenamesNotIterable)
    else
      var parsed := seq(|datasets|, i requires 0 <= i < |datasets| => DefaultName(datasets[i]));
      var chosen := ChooseFilenames(filenames.value, parsed);
      if Truthy(prefix) && exists i :: 0 <= i < |chosen| && chosen[i].None? then
        assert exists i :: |datasets| <= i < |filenames.value| && filenames.value[i] == "" by {
          var i :| 0 <= i < |chosen| && chosen[i].None?;
          assert |datasets| <= i < |filenames.value| && filenames.value[i] == "";
        }
        Failure(PrefixOnMissingName)
      else
        assert Truthy(prefix) ==> forall i :: |datasets| <= i < |filenames.value| ==> filenames.value[i] != "" by {
          if Truthy(prefix) {
            forall i | |datasets| <= i < |filenames.value| ensures filenames.value[i] != "" {
              assert chosen[i].Some?;
            }
          }
        }
        var lead := if Truthy(prefix) then prefix.value else "";
        assert forall i :: 0 <= i < |datasets| ==> chosen[i].Some?;
        Success(seq(|datasets|, i requires 0 <= i < |datasets| => (lead + chosen[i].value, datasets[i].1)))
  }

  /** As written, the default `filenames=None` never gets as far as naming a file. */
  lemma DefaultFilenamesFail<T>(datasets: seq<(string, T)>, prefix: Option<string>)
    ensures SaveOutputs(datasets, None, prefix) == Failure(FilenamesNotIterable)
  {
  }

  /** The documented default: no file names given means every output keeps its own name. */
  function CorrectedSaveOutputs<T>(datasets: seq<(string, T)>, filenames: Option<seq<string>>, prefix: Option<string>)
    : (r: Result<seq<(string, T)>, SaveError>)
    ensures filenames.Some? ==> r == SaveOutputs(datasets, filenames, prefix)
    ensures filenames.None? ==> r == SaveOutputs(datasets, Some([]), prefix)
  {
    SaveOutputs(datasets, Some(if filenames.None? then [] else filenames.value), prefix)
  }

  /** With the correction, the defaults are `<name>.csv`, one per output, in order, behind the prefix. */
  lemma CorrectedDefaultNames<T>(datasets: seq<(string, T)>, prefix: Option<string>)
    ensures var r := CorrectedSaveOutputs(datasets, None, prefix);
            && r.Success?
            && |r.value| == |datasets|
            && forall i :: 0 <= i < |datasets| ==>
                 r.value[i] == ((if Truthy(prefix) then prefix.value else "") + datasets[i].0 + ".csv", datasets[i].1)
  {
    var r := CorrectedSaveOutputs(datasets, None, prefix);
    assert r == SaveOutputs(datasets, Some([]), prefix);
    assert r != Failure(PrefixOnMissingName);
    assert r != Failure(FilenamesNotIterable);
    forall i | 0 <= i < |datasets|
      ensures r.value[i] == ((if Truthy(prefix) then prefix.value else "") + datasets[i].0 + ".csv", datasets[i].1)
    {
      var lead := if Truthy(prefix) then prefix.value else "";
      assert lead + (datasets[i].0 + ".csv") == lead + datasets[i].0 + ".csv";
    }
  }

  /** Surplus file names change nothing as long as none of them is empty while a prefix is set. */
  lemma SurplusFilenamesIgnored<T>(datasets: seq<(string, T)>, given: seq<string>, extra: seq<string>, prefix: Option<string>)
    requires |given| >= |datasets|
    requires forall i :: 0 <= i < |extra| ==> extra[i] != ""
    ensures SaveOutputs(datasets, Some(given + extra), prefix) == SaveOutputs(datasets, Some(given), prefix)
  {
    var longer := given + extra;
    assert forall j :: |given| <= j < |longer| ==> longer[j] == extra[j - |given|] != "";
    assert forall j :: 0 <= j < |given| ==> longer[j] == given[j];
    var r1 := SaveOutputs(datasets, Some(longer), prefix);
    var r2 := SaveOutputs(datasets, Some(given), prefix);
    assert (r1 == Failure(PrefixOnMissingName)) == (r2 == Failure(PrefixOnMissingName));
    if r2.Success? {
      assert r1.value == r2.value;
    }
  }
}
