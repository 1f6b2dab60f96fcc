/** The character-level n-gram model: training fills a map from windows to frequency tables
    (one `List` each) and finalizes their probabilities; generation extends a seed text by
    sampling from the table of the current window. The random generator is replaced by a
    sequence of draws, one per generated character. */
module LanguageModels {
  import opened Entries
  import opened Lists
  import opened Probabilities
  import opened Training
  import opened Generation

  class LanguageModel {
    var charDataMap: map<string, List>
    const windowLength: int
    /** The tables as values, by window. */
    ghost var Model: map<string, seq<Entry>>
    ghost var Repr: set<object>

    /** The model owns every table, each table is a valid list holding the values `Model`
        records for its window, and no two windows share a list or a record. Each fact is
        stated per key, and is brought in only where that key's fact is mentioned. */
    ghost predicate Owns()
      reads this, Repr
    {
      this in Repr && charDataMap.Keys == Model.Keys &&
      (forall key {:trigger Holds(key)} :: key in charDataMap ==> Holds(key)) &&
      (forall k1, k2 {:trigger Apart(k1, k2)} ::
         k1 in charDataMap && k2 in charDataMap && k1 != k2 ==> Apart(k1, k2))
    }

    /** The list of `key` is owned by the model, valid, and holds the table `Model` records. */
    ghost predicate Holds(key: string)
      reads this, Repr
      requires key in charDataMap
    {
      var probs := charDataMap[key];
      key in Model && probs in Repr && probs.Repr <= Repr && this !in probs.Repr &&
      probs.Valid() && probs.Contents == Model[key]
    }

    /** The lists of `k1` and `k2` share no object. */
    ghost predicate Apart(k1: string, k2: string)
      reads this, Repr
      requires k1 in charDataMap && k2 in charDataMap
    {
      charDataMap[k1] in Repr && charDataMap[k2] in Repr &&
      charDataMap[k1].Repr !! charDataMap[k2].Repr
    }

    /** Between calls: every key is a window of the model's length, and every table is well
        formed and has its probabilities set. */
    ghost predicate Valid()
      reads this, Repr
    {
      Owns() && windowLength >= 1 &&
      Tables(windowLength, Model) &&
      forall key :: key in Model ==> Finalized(Model[key])
    }

    /** A model with no tables. The source accepts any window length, but a window shorter
        than one cannot slide (`substring(1)` of the empty window fails). */
    constructor (windowLength: int)
      requires windowLength >= 1
      ensures Valid() && fresh(Repr)
      ensures this.windowLength == windowLength && Model == map[]
    {
      this.windowLength := windowLength;
      charDataMap := map[];
      Model := map[];
      Repr := {this};
    }

    /** Counts every character of the corpus after the first window into the table of the
        window that precedes it, then finalizes the probabilities of every table. */
    method Train(corpus: string)
      requires Valid() && |corpus| >= windowLength
      modifies Repr
      ensures Valid() && fresh(Repr - old(Repr))
      ensures Model == Trained(old(Model), corpus, windowLength)
      ensures KeepsLists(old(charDataMap), charDataMap)
    {
      ghost var start := Model;
      CountCorpus(corpus);
      CountedTables(start, corpus, windowLength, |corpus| - windowLength);
      FinalizeTables();
      TrainedTables(start, corpus, windowLength);
    }

    /** The counting loop of training: slides the window over the corpus one character at a
        time, counting each character in the table of the window before it. */
    method CountCorpus(corpus: string)
      requires Owns() && 1 <= windowLength <= |corpus|
      modifies Repr
      ensures Owns() && fresh(Repr - old(Repr))
      ensures Model == Counted(old(Model), corpus, windowLength, |corpus| - windowLength)
      ensures KeepsLists(old(charDataMap), charDataMap)
    {
      ghost var start := Model;
      var window := corpus[..windowLength];
      var n := 0;
      while n < |corpus| - windowLength
        invariant 0 <= n <= |corpus| - windowLength
        invariant window == WindowAt(corpus, windowLength, n)
        invariant Owns() && fresh(Repr - old(Repr))
        invariant Model == Counted(start, corpus, windowLength, n)
        invariant KeepsLists(old(charDataMap), charDataMap)
      {
        window := CountNext(corpus, n, window, start);
        n := n + 1;
      }
    }

    /** One iteration of the counting loop: counts the character at `n + windowLength` in
        the table of the window before it, which extends the counting by one position, and
        slides the window over that character. */
    method CountNext(corpus: string, n: int, window: string, ghost start: map<string, seq<Entry>>)
        returns (next: string)
      requires Owns() && windowLength >= 1 && 0 <= n && n + windowLength < |corpus|
      requires window == WindowAt(corpus, windowLength, n)
      requires Model == Counted(start, corpus, windowLength, n)
      modifies Repr
      ensures Owns() && fresh(Repr - old(Repr))
      ensures Model == Counted(start, corpus, windowLength, n + 1)
      ensures next == WindowAt(corpus, windowLength, n + 1)
      ensures KeepsLists(old(charDataMap), charDataMap)
    {
      var c := corpus[n + windowLength];
      next := window[1..] + [c];
      WindowSlides(corpus, windowLength, n);
      UpdateTable(window, c);
      CountedStep(start, corpus, windowLength, n, old(Model), Model);
    }

    /** One step of training: counts `c` in the table of `window`, creating the table if the
        window is new. */
    method UpdateTable(window: string, c: char)
      requires Owns()
      modifies Repr
      ensures Owns() && fresh(Repr - old(Repr))
      ensures Model == old(Model)[window := Updated(Lookup(old(Model), window), c)]
      ensures KeepsLists(old(charDataMap), charDataMap)
    {
      var probs := TableOf(window);
      CountIn(window, c);
    }

    /** Counts `c` in the existing table of `key`. */
    method CountIn(key: string, c: char)
      requires Owns() && key in charDataMap
      modifies Repr
      ensures Owns() && fresh(Repr - old(Repr))
      ensures Model == old(Model)[key := Updated(old(Model)[key], c)]
      ensures charDataMap == old(charDataMap)
    {
      var probs := charDataMap[key];
      assert Holds(key);
      probs.Update(c);
      Repr := Repr + probs.Repr;
      Model := Model[key := probs.Contents];
      assert Holds(key);
      forall other | other in charDataMap && other != key
        ensures Holds(other) && Apart(other, key) && Apart(key, other)
      {
        assert old(Holds(other) && Apart(other, key));
        ListKept(charDataMap[other]);
      }
      forall k1, k2 | k1 in charDataMap && k2 in charDataMap && k1 != k2 && k1 != key && k2 != key
        ensures Apart(k1, k2)
      {
        assert old(Holds(k1) && Holds(k2) && Apart(k1, key) && Apart(k2, key) && Apart(k1, k2));
      }
    }

    /** The table of `window`, created empty and put in the map if the window is new. */
    method TableOf(window: string) returns (probs: List)
      requires Owns()
      modifies this
      ensures Owns() && fresh(Repr - old(Repr))
      ensures window in charDataMap && probs == charDataMap[window] && Holds(window)
      ensures Model == old(Model)[window := Lookup(old(Model), window)]
      ensures charDataMap == old(charDataMap)[window := probs]
      ensures old(window in charDataMap) ==> probs == old(charDataMap[window])
    {
      if window in charDataMap {
        probs := charDataMap[window];
        assert Holds(window);
        return;
      }
      probs := new List();
      charDataMap := charDataMap[window := probs];
      Model := Model[window := []];
      Repr := Repr + probs.Repr;
      assert Holds(window);
      forall key | key in charDataMap && key != window
        ensures Holds(key) && Apart(key, window) && Apart(window, key)
      {
        assert old(Holds(key));
      }
      forall k1, k2 | k1 in charDataMap && k2 in charDataMap && k1 != k2 && k1 != window && k2 != window
        ensures Apart(k1, k2)
      {
        assert old(Apart(k1, k2));
      }
    }

    /** The end of training: finalizes the probabilities of every table, in no particular
        order, as the source does over the map's values. */
    method FinalizeTables()
      requires Owns() && windowLength >= 1 && Tables(windowLength, Model)
      modifies Repr
      ensures Owns() && Repr == old(Repr) && charDataMap == old(charDataMap)
      ensures Model == CalculatedAll(old(Model))
    {
      ghost var start := Model;
      var keys := charDataMap.Keys;
      PartlyCalculatedNone(start);
      while keys != {}
        invariant Owns() && charDataMap == old(charDataMap) && Repr == old(Repr)
        invariant keys <= start.Keys && Model == PartlyCalculated(start, keys)
        decreases keys
      {
        var key :| key in keys;
        FinalizeTable(key);
        PartlyCalculatedStep(start, keys, key);
        keys := keys - {key};
      }
      PartlyCalculatedAll(start);
    }

    /** Finalizes the probabilities of the table of `key`. */
    method FinalizeTable(key: string)
      requires Owns() && key in charDataMap && key in Model && IsTable(Model[key])
      modifies Repr
      ensures Owns() && Repr == old(Repr) && charDataMap == old(charDataMap)
      ensures Model == old(Model)[key := Calculated(old(Model)[key])]
    {
      var probs := charDataMap[key];
      assert Holds(key);
      CalculateProbabilities(probs);
      Model := Model[key := probs.Contents];
      assert Holds(key);
      forall other | other in charDataMap && other != key
        ensures Holds(other) && Apart(other, key) && Apart(key, other)
      {
        assert old(Holds(other) && Apart(other, key));
        ListKept(charDataMap[other]);
      }
      forall k1, k2 | k1 in charDataMap && k2 in charDataMap && k1 != k2 && k1 != key && k2 != key
        ensures Apart(k1, k2)
      {
        assert old(Holds(k1) && Holds(k2) && Apart(k1, key) && Apart(k2, key) && Apart(k1, k2));
      }
    }

    /** Sets each record's `p` to its share of the table's total count and its `cp` to the
        running sum of the `p`s along the list, in three passes over the list. The source
        dereferences a null iterator on an empty list; counts are positive because records
        start at one and only grow. */
    method CalculateProbabilities(probs: List)
      requires probs.Valid() && probs.size > 0 && Positive(probs.Contents)
      modifies probs`Contents, probs.cells
      ensures probs.Valid()
      ensures probs.Contents == Calculated(old(probs.Contents))
    {
      ghost var es := probs.Contents;
      var numOfChars := SumCounts(probs);
      TotalBounds(es, |es|);
      SetShares(probs, numOfChars);
      ghost var gs := probs.Contents;
      label Shared:
      SetRunningSums(probs);
      ghost var rs := WithRunningSums(gs);
      forall j | 0 <= j < |probs.cells|
        ensures probs.cells[j].Value() == rs[j]
      {
        assert probs.cells[j].cp == PrefixSum(gs, j) && old@Shared(probs.cells[j].Value()) == gs[j];
      }
      probs.Contents := rs;
    }

    /** The first pass: the total number of characters counted in the table. */
    method SumCounts(probs: List) returns (numOfChars: int)
      requires probs.Valid() && probs.size > 0
      ensures numOfChars == Total(probs.Contents)
    {
      ghost var es := probs.Contents;
      numOfChars := 0;
      var it := probs.ListIteratorAt(0);
      ghost var i := 0;
      while it.HasNext()
        invariant 0 <= i <= |es| && it.rest == probs.cells[i..]
        invariant numOfChars == Total(es[..i])
        decreases |it.rest|
      {
        var curr := it.Next();
        TotalStep(es, i);
        assert curr.Value() == es[i];
        numOfChars := numOfChars + curr.count;
        i := i + 1;
      }
      assert es[..i] == es;
    }

    /** The second pass: each record's probability, its count over the total. */
    method SetShares(probs: List, numOfChars: int)
      requires probs.Valid() && numOfChars > 0
      modifies probs`Contents, probs.cells
      ensures probs.Valid()
      ensures probs.Contents == WithShares(old(probs.Contents), numOfChars)
    {
      ghost var es := probs.Contents;
      ghost var gs := WithShares(es, numOfChars);
      var it := probs.ListIteratorAt(0);
      if it == null {
        return;
      }
      ghost var i := 0;
      while it.HasNext()
        invariant 0 <= i <= |es| && it.rest == probs.cells[i..]
        invariant forall j :: 0 <= j < i ==> probs.cells[j].Value() == gs[j]
        invariant forall j :: i <= j < |es| ==> probs.cells[j].Value() == es[j]
        decreases |it.rest|
      {
        var curr := it.Next();
        curr.p := curr.count as real / numOfChars as real;
        i := i + 1;
      }
      probs.Contents := gs;
    }

    /** The third pass: the first record's `cp` is its `p`, and each later record's `cp` adds
        its `p` to the `cp` of the record before it. Only the `cp` fields change, so the
        records' values are read from `Contents`, which this pass leaves to its caller. */
    method SetRunningSums(probs: List)
      requires probs.Valid() && probs.size > 0
      modifies probs.cells`cp
      ensures forall j {:trigger probs.cells[j]} :: 0 <= j < |probs.cells| ==>
        probs.cells[j].cp == PrefixSum(probs.Contents, j)
    {
      ghost var es := probs.Contents;
      ghost var cs := probs.cells;
      var prev := probs.Get(0);
      prev.cp := prev.p;
      var it := probs.ListIteratorAt(1);
      ghost var i := 1;
      while it.HasNext()
        invariant 1 <= i <= |es| && it.rest == cs[i..] && prev == cs[i - 1]
        invariant forall j {:trigger cs[j]} :: 0 <= j < i ==> cs[j].cp == PrefixSum(es, j)
        decreases |it.rest|
      {
        var curr := it.Next();
        assert curr == cs[i];
        curr.cp := prev.cp + curr.p;
        prev := curr;
        i := i + 1;
      }
    }

    /** The character of the first record whose `cp` reaches the draw `r`, or 'X' when none
        does. The source dereferences a null iterator on an empty list. */
    method GetRandomChar(probs: List, r: real) returns (c: char)
      requires probs.Valid() && probs.size > 0
      ensures c == Sample(probs.Contents, r)
    {
      var it := probs.ListIteratorAt(0);
      ghost var i := 0;
      while it.HasNext()
        invariant 0 <= i <= probs.size && it.rest == probs.cells[i..]
        invariant forall j :: 0 <= j < i ==> probs.Contents[j].cp < r
        decreases |it.rest|
      {
        var curr := it.Next();
        if curr.cp >= r {
          assert probs.Contents[i] == curr.Value();
          return curr.chr;
        }
        i := i + 1;
      }
      return 'X';
    }

    /** Extends `initialText` by up to `textLength` characters, the k-th sampled with
        `draws[k]` from the table of the last `windowLength` characters so far; stops early
        at a window with no table. A seed shorter than the window is returned as it is. */
    method Generate(initialText: string, textLength: int, draws: seq<real>) returns (s: string)
      requires Valid() && textLength <= |draws|
      ensures |initialText| < windowLength ==> s == initialText
      ensures |initialText| >= windowLength ==>
        s == initialText + Generated(Model, initialText[|initialText| - windowLength..], textLength, draws)
    {
      if |initialText| < windowLength {
        return initialText;
      }
      s := Extend(initialText, initialText[|initialText| - windowLength..], textLength, draws);
    }

    /** The loop of generation: appends to `output` up to `textLength` characters, each
        sampled from the table of the current window, which then slides over it. */
    method Extend(initialText: string, start: string, textLength: int, draws: seq<real>) returns (output: string)
      requires Owns() && (forall key :: key in Model ==> Model[key] != [])
      requires |start| >= 1 && textLength <= |draws|
      ensures output == initialText + Generated(Model, start, textLength, draws)
    {
      output := initialText;
      var window := start;
      ghost var full := Generated(Model, window, textLength, draws);
      ghost var gen: string := [];
      var i := 0;
      assert draws[0..] == draws;
      while i < textLength
        invariant 0 <= i <= |draws| && (textLength >= 0 ==> i <= textLength) && |window| == |start|
        invariant output == initialText + gen
        invariant full == gen + Generated(Model, window, textLength - i, draws[i..])
      {
        if window !in charDataMap {
          return;
        }
        var probs := charDataMap[window];
        assert Holds(window);
        var c := GetRandomChar(probs, draws[i]);
        assert draws[i..][1..] == draws[i + 1..];
        GeneratedStep(Model, window, textLength - i, draws[i..]);
        ghost var rest := Generated(Model, window[1..] + [c], textLength - i - 1, draws[i + 1..]);
        assert full == (gen + [c]) + rest;
        assert output + [c] == initialText + (gen + [c]);
        output := output + [c];
        gen := gen + [c];
        window := window[1..] + [c];
        i := i + 1;
      }
    }
  }

  /** Every window of `before` still maps to the same list object in `after`: training
      reuses the lists it has stored and never replaces one. */
  predicate KeepsLists(before: map<string, List>, after: map<string, List>)
  {
    forall key :: key in before ==> key in after && after[key] == before[key]
  }

  /** A list none of whose objects changed is still valid and holds the same table. */
  twostate lemma ListKept(probs: List)
    requires old(probs.Valid()) && unchanged(probs) && unchanged(old(probs.Repr))
    ensures probs.Valid() && probs.Contents == old(probs.Contents)
  {
  }

  /** The tables of `start`, with the probabilities of every table whose key is not
      `pending` computed. */
  ghost function PartlyCalculated(start: map<string, seq<Entry>>, pending: set<string>): map<string, seq<Entry>>
    requires forall key :: key in start ==> IsTable(start[key])
  {
    map key | key in start ::
      if key in pending then start[key] else assert IsTable(start[key]); Calculated(start[key])
  }

  /** With every key pending, nothing is computed yet. */
  lemma PartlyCalculatedNone(start: map<string, seq<Entry>>)
    requires forall key :: key in start ==> IsTable(start[key])
    ensures PartlyCalculated(start, start.Keys) == start
  {
  }

  /** Computing the table of one pending key takes it off the pending keys. */
  lemma PartlyCalculatedStep(start: map<string, seq<Entry>>, pending: set<string>, key: string)
    requires forall key :: key in start ==> IsTable(start[key])
    requires key in pending && pending <= start.Keys
    ensures var m := PartlyCalculated(start, pending);
      key in m && m[key] == start[key] &&
      m[key := Calculated(start[key])] == PartlyCalculated(start, pending - {key})
  {
  }

  /** With no key pending, every table is computed. */
  lemma PartlyCalculatedAll(start: map<string, seq<Entry>>)
    requires forall key :: key in start ==> IsTable(start[key])
    ensures PartlyCalculated(start, {}) == CalculatedAll(start)
  {
  }
}
