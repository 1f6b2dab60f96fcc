/** What training computes, as values: the frequency tables after counting a corpus one
    position at a time, and the independent count of occurrences they must agree with. */
module Training {
  import opened Entries
  import opened Probabilities

  /** The window of length `w` starting at position `i` of the corpus. */
  function WindowAt(corpus: string, w: nat, i: nat): string
    requires i + w <= |corpus|
  {
    corpus[i..i + w]
  }

  /** Sliding the window at `n` over the character after it gives the window at `n + 1`. */
  lemma WindowSlides(corpus: string, w: nat, n: nat)
    requires 0 < w && n + w < |corpus|
    ensures WindowAt(corpus, w, n + 1) == WindowAt(corpus, w, n)[1..] + [corpus[n + w]]
  {
  }

  /** The table a model holds for `key`, or the empty table when it holds none. */
  function Lookup(m: map<string, seq<Entry>>, key: string): seq<Entry>
  {
    if key in m then m[key] else []
  }

  /** The tables after counting, into `start`, the first `n` positions of the corpus:
      position `i` counts the character `corpus[i + w]` in the table of the window that
      precedes it, creating that table if the window is new. */
  function Counted(start: map<string, seq<Entry>>, corpus: string, w: nat, n: nat): map<string, seq<Entry>>
    requires n + w <= |corpus|
  {
    if n == 0 then start
    else
      var m := Counted(start, corpus, w, n - 1);
      var key := WindowAt(corpus, w, n - 1);
      m[key := Updated(Lookup(m, key), corpus[n - 1 + w])]
  }

  /** Counting one more position counts its character in the table of its window. */
  lemma CountedStep(start: map<string, seq<Entry>>, corpus: string, w: nat, n: nat,
                    before: map<string, seq<Entry>>, after: map<string, seq<Entry>>)
    requires n + w < |corpus| && before == Counted(start, corpus, w, n)
    requires var key := WindowAt(corpus, w, n);
      after == before[key := Updated(Lookup(before, key), corpus[n + w])]
    ensures after == Counted(start, corpus, w, n + 1)
  {
  }

  /** The window at position `i` is `key` and the character after it is `c`. */
  predicate Follows(corpus: string, w: nat, i: nat, key: string, c: char)
    requires i + w < |corpus|
  {
    WindowAt(corpus, w, i) == key && corpus[i + w] == c
  }

  /** The number of positions among the first `n` where `key` is followed by `c`. */
  function Occurrences(corpus: string, w: nat, n: nat, key: string, c: char): nat
    requires n + w <= |corpus|
  {
    if n == 0 then 0
    else Occurrences(corpus, w, n - 1, key, c) + (if Follows(corpus, w, n - 1, key, c) then 1 else 0)
  }

  /** Every key has the window length and every table is well formed. */
  ghost predicate Tables(w: nat, m: map<string, seq<Entry>>)
  {
    forall key :: key in m ==> |key| == w && IsTable(m[key])
  }

  /** Counting keeps every key at the window length and every table well formed; in
      particular no table is empty and no character has two records. */
  lemma {:induction false} CountedTables(start: map<string, seq<Entry>>, corpus: string, w: nat, n: nat)
    requires n + w <= |corpus| && Tables(w, start)
    ensures Tables(w, Counted(start, corpus, w, n))
  {
    if n > 0 {
      var m := Counted(start, corpus, w, n - 1);
      var key := WindowAt(corpus, w, n - 1);
      var es := Updated(Lookup(m, key), corpus[n - 1 + w]);
      assert Counted(start, corpus, w, n) == m[key := es];
      CountedTables(start, corpus, w, n - 1);
      UpdatedIsTable(Lookup(m, key), corpus[n - 1 + w]);
      TablesStored(w, m, key, es);
    }
  }

  /** Storing a well-formed table under a key of the window length keeps the model's tables
      well formed. */
  lemma TablesStored(w: nat, m: map<string, seq<Entry>>, key: string, es: seq<Entry>)
    requires Tables(w, m) && |key| == w && IsTable(es)
    ensures Tables(w, m[key := es])
  {
  }

  /** Counting from no tables, the keys are exactly the windows at the counted positions,
      that is the windows followed by at least one character. */
  lemma {:induction false} CountedKeys(corpus: string, w: nat, n: nat, key: string)
    requires n + w <= |corpus|
    ensures key in Counted(map[], corpus, w, n) <==> exists i :: 0 <= i < n && WindowAt(corpus, w, i) == key
  {
    if n > 0 {
      var m := Counted(map[], corpus, w, n - 1);
      var k := WindowAt(corpus, w, n - 1);
      assert key in Counted(map[], corpus, w, n) <==> key in m || key == k;
      CountedKeys(corpus, w, n - 1, key);
      if key == k {
        assert WindowAt(corpus, w, n - 1) == key;
      } else if exists i :: 0 <= i < n && WindowAt(corpus, w, i) == key {
        var i :| 0 <= i < n && WindowAt(corpus, w, i) == key;
        assert i < n - 1;
      }
    }
  }

  /** Counting `d` in the table of `k` raises the count of `c` in the table of `key` by one
      exactly when `key` is `k` and `c` is `d`, and leaves it alone otherwise. */
  lemma CountStep(m: map<string, seq<Entry>>, k: string, d: char, key: string, c: char)
    requires k in m ==> Unique(m[k])
    ensures CountOf(Lookup(m[k := Updated(Lookup(m, k), d)], key), c) ==
      CountOf(Lookup(m, key), c) + (if key == k && c == d then 1 else 0)
  {
    if key == k {
      UpdatedCounts(Lookup(m, k), d, c);
    } else {
      assert Lookup(m[k := Updated(Lookup(m, k), d)], key) == Lookup(m, key);
    }
  }

  /** Counting from no tables, the count a table holds for `c` is the number of positions
      where the key is followed by `c`. */
  lemma {:induction false} CountedCounts(corpus: string, w: nat, n: nat, key: string, c: char)
    requires n + w <= |corpus|
    ensures CountOf(Lookup(Counted(map[], corpus, w, n), key), c) == Occurrences(corpus, w, n, key, c)
  {
    if n > 0 {
      var m := Counted(map[], corpus, w, n - 1);
      var k := WindowAt(corpus, w, n - 1);
      CountedCounts(corpus, w, n - 1, key, c);
      CountedTables(map[], corpus, w, n - 1);
      assert k in m ==> IsTable(m[k]);
      CountStep(m, k, corpus[n - 1 + w], key, c);
    }
  }

  /** Every table of the model with its probabilities computed. */
  ghost function CalculatedAll(m: map<string, seq<Entry>>): map<string, seq<Entry>>
    requires forall key :: key in m ==> IsTable(m[key])
  {
    map key | key in m :: assert IsTable(m[key]); Calculated(m[key])
  }

  /** The tables after training: every table counted from the corpus into `start`, with
      its probabilities computed. */
  ghost function Trained(start: map<string, seq<Entry>>, corpus: string, w: nat): map<string, seq<Entry>>
    requires w <= |corpus| && Tables(w, start)
  {
    CountedTables(start, corpus, w, |corpus| - w);
    CalculatedAll(Counted(start, corpus, w, |corpus| - w))
  }

  /** Training keeps every table well formed and leaves each with its probabilities set. */
  lemma TrainedTables(start: map<string, seq<Entry>>, corpus: string, w: nat)
    requires w <= |corpus| && Tables(w, start)
    ensures var m := Trained(start, corpus, w);
      Tables(w, m) && forall key :: key in m ==> Finalized(m[key])
  {
    var counted := Counted(start, corpus, w, |corpus| - w);
    CountedTables(start, corpus, w, |corpus| - w);
    var m := Trained(start, corpus, w);
    forall key | key in m
      ensures IsTable(m[key]) && Finalized(m[key])
    {
      CalculatedIsFinalized(counted[key]);
      TableKept(counted[key], m[key]);
    }
  }

  /** Trained from no tables, the model has a table exactly for the windows of the corpus
      that are followed by at least one character. */
  lemma TrainedKeys(corpus: string, w: nat, key: string)
    requires w <= |corpus|
    ensures key in Trained(map[], corpus, w) <==>
      exists i :: 0 <= i < |corpus| - w && WindowAt(corpus, w, i) == key
  {
    CountedKeys(corpus, w, |corpus| - w, key);
  }

  /** Trained from no tables, the count a table holds for `c` is the number of times the
      corpus has `c` right after the table's window. */
  lemma TrainedCounts(corpus: string, w: nat, key: string, c: char)
    requires w <= |corpus|
    ensures CountOf(Lookup(Trained(map[], corpus, w), key), c) == Occurrences(corpus, w, |corpus| - w, key, c)
  {
    var n := |corpus| - w;
    var counted := Counted(map[], corpus, w, n);
    CountedCounts(corpus, w, n, key, c);
    CountedTables(map[], corpus, w, n);
    var m := Trained(map[], corpus, w);
    assert key in m <==> key in counted;
    if key in counted {
      var es := counted[key];
      assert m[key] == Calculated(es);
      CalculatedKeepsCounts(es);
      CountOfKept(es, m[key], c);
    }
  }
}
