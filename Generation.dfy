/** What generation computes, as values: the characters appended to a seed when each step
    samples from the table of the current window with the next draw. */
module Generation {
  import opened Entries
  import opened Probabilities

  /** The characters generated from `window` in at most `n` steps: a step stops everything
      when the window has no table, and otherwise samples a character with the next draw,
      appends it and slides the window over it. */
  function Generated(model: map<string, seq<Entry>>, window: string, n: int, draws: seq<real>): string
    requires |window| >= 1 && n <= |draws|
    decreases n
  {
    if n <= 0 || window !in model then []
    else
      var c := Sample(model[window], draws[0]);
      [c] + Generated(model, window[1..] + [c], n - 1, draws[1..])
  }

  /** A step from a window that has a table samples with the first draw, then generates
      from the slid window with the remaining draws. */
  lemma GeneratedStep(model: map<string, seq<Entry>>, window: string, n: int, draws: seq<real>)
    requires |window| >= 1 && 0 < n <= |draws| && window in model
    ensures var c := Sample(model[window], draws[0]);
      Generated(model, window, n, draws) == [c] + Generated(model, window[1..] + [c], n - 1, draws[1..])
  {
  }

  /** The window a step draws from: the `|window|` characters ending just before position
      `i` of the generated text. */
  function WindowBefore(window: string, g: string, i: int): string
    requires 0 <= i <= |g|
  {
    (window + g)[i..i + |window|]
  }

  /** At most `n` characters are generated, none when `n` is not positive. */
  lemma {:induction false} GeneratedLength(model: map<string, seq<Entry>>, window: string, n: int, draws: seq<real>)
    requires |window| >= 1 && n <= |draws|
    ensures |Generated(model, window, n, draws)| <= (if n < 0 then 0 else n)
    decreases n
  {
    if n > 0 && window in model {
      var c := Sample(model[window], draws[0]);
      GeneratedLength(model, window[1..] + [c], n - 1, draws[1..]);
    }
  }

  /** Generation falls short of `n` characters only when the window it reached has no table. */
  lemma {:induction false} GeneratedStops(model: map<string, seq<Entry>>, window: string, n: int, draws: seq<real>)
    requires |window| >= 1 && n <= |draws|
    ensures var g := Generated(model, window, n, draws);
      |g| < n ==> WindowBefore(window, g, |g|) !in model
    decreases n
  {
    var g := Generated(model, window, n, draws);
    if n > 0 && window in model {
      var c := Sample(model[window], draws[0]);
      var w' := window[1..] + [c];
      var g' := Generated(model, w', n - 1, draws[1..]);
      GeneratedStops(model, w', n - 1, draws[1..]);
      assert g == [c] + g';
      assert window + g == [window[0]] + (w' + g');
      assert WindowBefore(window, g, |g|) == WindowBefore(w', g', |g'|);
    } else if n > 0 {
      assert g == [];
      assert WindowBefore(window, g, 0) == window;
    }
  }

  /** Character `i` of the generated text is the sample, with draw `i`, from the table of the
      window it follows, and that window has a table. */
  lemma {:induction false} GeneratedDrawnFrom(model: map<string, seq<Entry>>, window: string, n: int, draws: seq<real>, i: int)
    requires |window| >= 1 && n <= |draws|
    requires 0 <= i < |Generated(model, window, n, draws)|
    ensures i < |draws|
    ensures var g := Generated(model, window, n, draws);
      WindowBefore(window, g, i) in model &&
      g[i] == Sample(model[WindowBefore(window, g, i)], draws[i])
    decreases n
  {
    var g := Generated(model, window, n, draws);
    var c := Sample(model[window], draws[0]);
    var w' := window[1..] + [c];
    var g' := Generated(model, w', n - 1, draws[1..]);
    assert g == [c] + g';
    assert window + g == [window[0]] + (w' + g');
    if i == 0 {
      assert WindowBefore(window, g, 0) == window;
    } else {
      GeneratedDrawnFrom(model, w', n - 1, draws[1..], i - 1);
      assert WindowBefore(window, g, i) == WindowBefore(w', g', i - 1);
    }
  }

  /** When every table is finalized and every draw lies in [0, 1), each generated character
      has a record in the table of the window it follows: the 'X' fallback never appears. */
  lemma GeneratedFromTables(model: map<string, seq<Entry>>, window: string, n: int, draws: seq<real>, i: int)
    requires |window| >= 1 && n <= |draws|
    requires forall key :: key in model ==> Finalized(model[key])
    requires forall j :: 0 <= j < |draws| ==> 0.0 <= draws[j] < 1.0
    requires 0 <= i < |Generated(model, window, n, draws)|
    ensures var g := Generated(model, window, n, draws);
      WindowBefore(window, g, i) in model &&
      exists k :: 0 <= k < |model[WindowBefore(window, g, i)]| && model[WindowBefore(window, g, i)][k].chr == g[i]
  {
    var g := Generated(model, window, n, draws);
    GeneratedDrawnFrom(model, window, n, draws, i);
    var es := model[WindowBefore(window, g, i)];
    SampleHits(es, draws[i]);
    var k := FirstReaching(es, draws[i]);
    assert es[k].chr == g[i];
  }
}
