/** The value view of one frequency table: the records of a `List`, read as plain values.
    A table is kept in list order (new characters are prepended), and every character
    has at most one record in a table built by `update`. */
module Entries {

  /** One CharData record: a character, how often it followed the window, and, once the
      table is finalized, its probability `p` and cumulative probability `cp`. */
  datatype Entry = Entry(chr: char, count: int, p: real, cp: real)

  /** The record a fresh `CharData(chr)` holds: seen once, probabilities not yet set. */
  function NewEntry(c: char): Entry
  {
    Entry(c, 1, 0.0, 0.0)
  }

  /** Index of the first record holding `c`, or -1 when no record holds it. */
  function Find(es: seq<Entry>, c: char): (r: int)
    ensures -1 <= r < |es|
    ensures r == -1 <==> forall i :: 0 <= i < |es| ==> es[i].chr != c
    ensures r != -1 ==> es[r].chr == c && forall i :: 0 <= i < r ==> es[i].chr != c
  {
    if es == [] then -1
    else if es[0].chr == c then 0
    else
      var k := Find(es[1..], c);
      if k == -1 then -1 else k + 1
  }

  /** The table after counting one more occurrence of `c`: the record for `c` has its count
      raised by one, or a fresh record for `c` is put in front. */
  function Updated(es: seq<Entry>, c: char): seq<Entry>
  {
    var k := Find(es, c);
    if k == -1 then [NewEntry(c)] + es
    else es[k := es[k].(count := es[k].count + 1)]
  }

  /** How often the table says `c` was seen: the count of its record, or 0 without one. */
  function CountOf(es: seq<Entry>, c: char): int
  {
    var k := Find(es, c);
    if k == -1 then 0 else es[k].count
  }

  /** Every character has at most one record. */
  ghost predicate Unique(es: seq<Entry>)
  {
    forall i, j :: 0 <= i < j < |es| ==> es[i].chr != es[j].chr
  }

  /** Every count is at least one. */
  ghost predicate Positive(es: seq<Entry>)
  {
    forall i :: 0 <= i < |es| ==> es[i].count >= 1
  }

  /** A table as training leaves it: not empty, one record per character, counts positive. */
  ghost predicate IsTable(es: seq<Entry>)
  {
    |es| > 0 && Unique(es) && Positive(es)
  }

  /** `after` holds the same characters with the same counts, in the same order, as `before`
      (the probabilities may differ). */
  ghost predicate CountsKept(before: seq<Entry>, after: seq<Entry>)
  {
    |after| == |before| &&
    forall i :: 0 <= i < |before| ==> after[i].chr == before[i].chr && after[i].count == before[i].count
  }

  /** Two tables with the same characters in the same order find every character at the
      same index. */
  lemma {:induction false} FindSameChars(a: seq<Entry>, b: seq<Entry>, c: char)
    requires |a| == |b|
    requires forall i :: 0 <= i < |a| ==> a[i].chr == b[i].chr
    ensures Find(a, c) == Find(b, c)
  {
    if Find(a, c) != -1 {
      assert b[Find(a, c)].chr == c;
    }
    if Find(b, c) != -1 {
      assert a[Find(b, c)].chr == c;
    }
  }

  /** Updating for a character with no record puts a record for it, seen once, in front;
      updating for one with a record keeps the length and raises that record's count. */
  lemma UpdatedShape(es: seq<Entry>, c: char)
    ensures Find(es, c) == -1 ==> Updated(es, c) == [NewEntry(c)] + es && |Updated(es, c)| == |es| + 1
    ensures Find(es, c) != -1 ==>
      var k := Find(es, c);
      |Updated(es, c)| == |es| &&
      Updated(es, c)[k].count == es[k].count + 1 &&
      Updated(es, c)[k].chr == c &&
      forall i :: 0 <= i < |es| && i != k ==> Updated(es, c)[i] == es[i]
  {
  }

  /** Counting `c` raises the count of `c` by one and leaves every other character's count
      as it was; the table keeps one record per character. */
  lemma {:induction false} UpdatedCounts(es: seq<Entry>, c: char, d: char)
    requires Unique(es)
    ensures Unique(Updated(es, c))
    ensures CountOf(Updated(es, c), d) == CountOf(es, d) + (if d == c then 1 else 0)
  {
    var u := Updated(es, c);
    var k := Find(es, c);
    if k == -1 {
      assert u == [NewEntry(c)] + es;
      if d != c {
        var kd := Find(es, d);
        var ku := Find(u, d);
        if kd != -1 {
          assert u[kd + 1].chr == d;
          assert es[ku - 1].chr == d;
        } else {
          assert forall i :: 0 <= i < |u| ==> u[i].chr != d by {
            forall i | 0 <= i < |u| ensures u[i].chr != d {
              if i > 0 { assert u[i] == es[i - 1]; }
            }
          }
        }
      }
    } else {
      FindSameChars(u, es, d);
    }
  }

  /** Counting keeps a well-formed table well-formed, and turns the empty table into one. */
  lemma UpdatedIsTable(es: seq<Entry>, c: char)
    requires es == [] || IsTable(es)
    ensures IsTable(Updated(es, c))
  {
    UpdatedCounts(es, c, c);
    UpdatedShape(es, c);
  }

  /** Tables with the same characters and counts give every character the same count. */
  lemma CountOfKept(before: seq<Entry>, after: seq<Entry>, c: char)
    requires CountsKept(before, after)
    ensures CountOf(after, c) == CountOf(before, c)
  {
    FindSameChars(before, after, c);
  }

  /** Keeping characters and counts keeps a well-formed table well formed. */
  lemma TableKept(before: seq<Entry>, after: seq<Entry>)
    requires CountsKept(before, after) && IsTable(before)
    ensures IsTable(after)
  {
  }
}
