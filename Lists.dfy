/** The singly linked list of CharData records that serves as one window's frequency table.
    The chain of nodes starting at `first` is represented by `cells`, the records in chain
    order; relinking nodes becomes reassigning `cells`, and walking the chain with a `curr`
    node becomes walking the suffix of `cells` that starts at that node. */
module Lists {
  import opened Entries

  /** One record; `update` and the probability computation change its fields in place. */
  class CharData {
    var chr: char
    var count: int
    var p: real
    var cp: real

    /** A record for `chr` that has been seen once. */
    constructor (chr: char)
      ensures Value() == NewEntry(chr)
    {
      this.chr := chr;
      count := 1;
      p := 0.0;
      cp := 0.0;
    }

    ghost function Value(): Entry
      reads this
    {
      Entry(chr, count, p, cp)
    }
  }

  /** The position, before unlinking the record at `k`, of the record now at `i`. */
  function Skip(i: int, k: int): int
  {
    if i < k then i else i + 1
  }

  /** Unlinking the element at `k` moves each later element one place to the front. */
  lemma Unlinked<T>(s: seq<T>, k: int)
    requires 0 <= k < |s|
    ensures |s[..k] + s[k + 1..]| == |s| - 1
    ensures forall i :: 0 <= i < |s| - 1 ==> (s[..k] + s[k + 1..])[i] == s[Skip(i, k)]
  {
  }

  /** The index check of `get` as written: it rejects negative indices and indices past
      `size`, so it lets `size` itself through, one node past the last. */
  predicate GetRejectsAsWritten(size: int, index: int)
  {
    index < 0 || index > size
  }

  /** The index check `get` needs: every index that does not name a node is rejected. */
  predicate GetRejects(size: int, index: int)
  {
    index < 0 || index >= size
  }

  /** The check as written lets `index == size` through, where the walk runs off the end of
      the list; the corrected check rejects it, and otherwise the two agree. */
  lemma GetCheckDiffers(size: nat, index: int)
    ensures !GetRejectsAsWritten(size, size) && GetRejects(size, size)
    ensures index != size ==> (GetRejectsAsWritten(size, index) <==> GetRejects(size, index))
  {
  }

  /** An iterator over a list: `rest` is the chain from its current node to the end. */
  class ListIterator {
    var rest: seq<CharData>

    constructor (rest: seq<CharData>)
      ensures this.rest == rest
    {
      this.rest := rest;
    }

    /** Whether a node remains, that is, whether `next` may be called. */
    predicate HasNext()
      reads this
    {
      rest != []
    }

    /** Returns the current record and moves to the next node. */
    method Next() returns (d: CharData)
      requires HasNext()
      modifies this
      ensures d == old(rest)[0] && rest == old(rest)[1..]
    {
      d := rest[0];
      rest := rest[1..];
    }
  }

  class List {
    var cells: seq<CharData>
    var size: int
    /** The records' values, in list order. */
    ghost var Contents: seq<Entry>
    ghost var Repr: set<object>

    /** `size` counts the linked records, the list owns them, no record is linked twice, and
        `Contents` holds their values. */
    ghost predicate Valid()
      reads this, Repr
    {
      this in Repr &&
      size == |cells| && |Contents| == |cells| &&
      (forall i :: 0 <= i < |cells| ==> cells[i] in Repr) &&
      (forall i, j :: 0 <= i < j < |cells| ==> cells[i] != cells[j]) &&
      (forall i {:trigger cells[i]} :: 0 <= i < |cells| ==> cells[i].Value() == Contents[i])
    }

    /** An empty list. */
    constructor ()
      ensures Valid() && fresh(Repr)
      ensures Contents == [] && Repr == {this}
    {
      cells := [];
      size := 0;
      Contents := [];
      Repr := {this};
    }

    method GetSize() returns (n: int)
      requires Valid()
      ensures n == |Contents|
    {
      n := size;
    }

    /** The first record; the source dereferences `first`, so the list must not be empty. */
    method GetFirst() returns (d: CharData)
      requires Valid() && size > 0
      ensures d == cells[0] && d.Value() == Contents[0]
    {
      d := cells[0];
    }

    /** Links a fresh record for `chr`, seen once, in front of the list. */
    method AddFirst(chr: char)
      requires Valid()
      modifies Repr
      ensures Valid() && fresh(Repr - old(Repr))
      ensures Contents == [NewEntry(chr)] + old(Contents)
      ensures fresh(cells[0]) && cells[1..] == old(cells)
    {
      var d := new CharData(chr);
      cells := [d] + cells;
      size := size + 1;
      Contents := [NewEntry(chr)] + Contents;
      Repr := Repr + {d};
    }

    /** The index of the first record holding `chr`, or -1. */
    method IndexOf(chr: char) returns (index: int)
      requires Valid()
      ensures index == Find(Contents, chr)
      ensures -1 <= index < size
    {
      var curr := cells;
      index := 0;
      while curr != []
        invariant 0 <= index <= |cells| && curr == cells[index..]
        invariant forall i :: 0 <= i < index ==> Contents[i].chr != chr
        decreases |curr|
      {
        if curr[0].chr == chr {
          assert Contents[index].chr == chr;
          return;
        }
        index := index + 1;
        curr := curr[1..];
      }
      index := -1;
    }

    /** Counts one more occurrence of `chr`: raises the count of its record in place, or
        links a fresh record for it in front. */
    method Update(chr: char)
      requires Valid()
      modifies Repr
      ensures Valid() && fresh(Repr - old(Repr))
      ensures Contents == Updated(old(Contents), chr)
      ensures Find(old(Contents), chr) == -1 ==> fresh(cells[0]) && cells[1..] == old(cells)
      ensures Find(old(Contents), chr) != -1 ==> cells == old(cells)
    {
      var index := IndexOf(chr);
      if index == -1 {
        AddFirst(chr);
        return;
      }
      var d := Get(index);
      d.count := d.count + 1;
      Contents := Contents[index := d.Value()];
      assert forall i :: 0 <= i < |cells| && i != index ==> cells[i] != d;
    }

    /** Unlinks the first record holding `chr`; false, with nothing changed, if none does. */
    method Remove(chr: char) returns (removed: bool)
      requires Valid()
      modifies this
      ensures Valid() && Repr == old(Repr)
      ensures removed <==> Find(old(Contents), chr) != -1
      ensures !removed ==> Contents == old(Contents) && cells == old(cells)
      ensures removed ==>
        var k := Find(old(Contents), chr);
        Contents == old(Contents[..k] + Contents[k + 1..]) && cells == old(cells[..k] + cells[k + 1..])
    {
      var index := IndexOf(chr);
      if index == -1 {
        return false;
      }
      Unlink(index);
      return true;
    }

    /** Unlinks the record at `index`: the first node is unlinked by moving `first`, any
        other by linking its predecessor to its successor. */
    method Unlink(index: int)
      requires Valid() && 0 <= index < size
      modifies this
      ensures Valid() && Repr == old(Repr)
      ensures Contents == old(Contents[..index] + Contents[index + 1..])
      ensures cells == old(cells[..index] + cells[index + 1..])
    {
      ghost var cs, es := cells, Contents;
      if index == 0 {
        cells := cells[1..];
        assert cells == cs[..0] + cs[1..];
      } else {
        cells := cells[..index] + cells[index + 1..];
      }
      size := size - 1;
      Contents := Contents[..index] + Contents[index + 1..];
      Unlinked(cs, index);
      Unlinked(es, index);
    }

    /** The record at `index`, reached by walking `index` nodes from the front; null stands
        for the IndexOutOfBoundsException thrown for an index the check rejects. */
    method Get(index: int) returns (d: CharData?)
      requires Valid()
      ensures d == null <==> GetRejects(size, index)
      ensures d != null ==> d == cells[index] && d.Value() == Contents[index]
    {
      if GetRejects(size, index) {
        return null;
      }
      var curr := cells;
      for i := 0 to index
        invariant curr == cells[i..]
      {
        curr := curr[1..];
      }
      d := curr[0];
    }

    /** A new array holding the records in list order. */
    method ToArray() returns (arr: array<CharData?>)
      requires Valid()
      ensures fresh(arr) && arr.Length == size
      ensures forall i :: 0 <= i < size ==> arr[i] == cells[i]
    {
      arr := new CharData?[size];
      var current := cells;
      var i := 0;
      while current != []
        invariant 0 <= i <= |cells| && current == cells[i..]
        invariant forall j :: 0 <= j < i ==> arr[j] == cells[j]
        decreases |current|
      {
        arr[i] := current[0];
        i := i + 1;
        current := current[1..];
      }
    }

    /** An iterator starting at the record at `index` (at the front when `index` is negative),
        or null for an empty list. Walking past the last node dereferences null in the
        source, so a non-empty list needs `index <= size`. */
    method ListIteratorAt(index: int) returns (it: ListIterator?)
      requires size == |cells|
      requires size == 0 || index <= size
      ensures size == 0 <==> it == null
      ensures it != null ==> fresh(it) && it.rest == cells[(if index < 0 then 0 else index)..]
    {
      if size == 0 {
        return null;
      }
      var current := cells;
      var i := 0;
      while i < index
        invariant 0 <= i <= |cells| && current == cells[i..]
        invariant index >= 0 ==> i <= index
        invariant index < 0 ==> i == 0
      {
        current := current[1..];
        i := i + 1;
      }
      it := new ListIterator(current);
    }
  }
}
