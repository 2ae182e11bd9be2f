/**
 * The list editing shared by the assistant editor and the exchange editor:
 * remove by index (a `filter`), change one entry (a `map`), and move an
 * entry up or down by two `splice` calls on a copy of the list.
 */
module ListEdit {

  /** The start position `Array.prototype.splice` uses for `start` on a list of length `len`. */
  function SpliceStart(start: int, len: nat): (k: nat)
    ensures k <= len
    ensures 0 <= start <= len ==> k == start
    ensures start < 0 ==> k == if len + start < 0 then 0 else len + start
  {
    if start < 0 then (if len + start < 0 then 0 else len + start)
    else if start > len then len
    else start
  }

  /**
   * `list.splice(start, deleteCount, ...items)`: the removed elements and the
   * list as it is afterwards.
   */
  function Splice<T>(s: seq<T>, start: int, deleteCount: int, items: seq<T>): (r: (seq<T>, seq<T>))
    ensures |r.0| <= |s| && |r.1| == |s| - |r.0| + |items|
  {
    var k := SpliceStart(start, |s|);
    var d := if deleteCount < 0 then 0 else if deleteCount > |s| - k then |s| - k else deleteCount;
    (s[k..k + d], s[..k] + items + s[k + d..])
  }

  lemma MultisetThreeWay<T>(s: seq<T>, k: nat, d: nat)
    requires k + d <= |s|
    ensures multiset(s[..k]) + multiset(s[k..k + d]) + multiset(s[k + d..]) == multiset(s)
  {
    assert s == s[..k] + s[k..k + d] + s[k + d..];
  }

  /** `splice` loses and invents nothing: the new list and the removed elements hold the old list and the inserted items. */
  lemma SplicePermutes<T>(s: seq<T>, start: int, deleteCount: int, items: seq<T>)
    ensures var r := Splice(s, start, deleteCount, items);
      multiset(r.1) + multiset(r.0) == multiset(s) + multiset(items)
  {
    var k := SpliceStart(start, |s|);
    var d := if deleteCount < 0 then 0 else if deleteCount > |s| - k then |s| - k else deleteCount;
    var r := Splice(s, start, deleteCount, items);
    assert r.0 == s[k..k + d] && r.1 == s[..k] + items + s[k + d..];
    MultisetThreeWay(s, k, d);
  }

  /** The list with the adjacent entries `i` and `i + 1` exchanged. */
  function SwapAdjacent<T>(s: seq<T>, i: nat): (r: seq<T>)
    requires i + 1 < |s|
    ensures |r| == |s|
    ensures r[i] == s[i + 1] && r[i + 1] == s[i]
    ensures forall k :: 0 <= k < |s| && k != i && k != i + 1 ==> r[k] == s[k]
    ensures multiset(r) == multiset(s)
  {
    assert s == s[..i] + [s[i], s[i + 1]] + s[i + 2..];
    s[..i] + [s[i + 1], s[i]] + s[i + 2..]
  }

  /** Swapping the same pair twice gives the list back. */
  lemma SwapAdjacentTwice<T>(s: seq<T>, i: nat)
    requires i + 1 < |s|
    ensures SwapAdjacent(SwapAdjacent(s, i), i) == s
  {
  }

  /** Taking one element out at a position inside the list. */
  lemma SpliceRemoveOne<T>(s: seq<T>, i: nat)
    requires i < |s|
    ensures Splice(s, i, 1, []) == ([s[i]], s[..i] + s[i + 1..])
  {
    var empty: seq<T> := [];
    assert SpliceStart(i, |s|) == i;
    assert s[i..i + 1] == [s[i]];
    assert s[..i] + empty + s[i + 1..] == s[..i] + s[i + 1..];
  }

  /** Putting one element in at a position inside or at the end of the list. */
  lemma SpliceInsertOne<T>(s: seq<T>, k: int, x: T)
    requires 0 <= k <= |s|
    ensures Splice(s, k, 0, [x]).1 == s[..k] + [x] + s[k..]
  {
  }

  /** A start of -1 counts from the end: the element goes in before the last one. */
  lemma SpliceInsertBeforeLast<T>(s: seq<T>, x: T)
    ensures |s| >= 1 ==> Splice(s, -1, 0, [x]).1 == s[..|s| - 1] + [x] + s[|s| - 1..]
    ensures |s| == 0 ==> Splice(s, -1, 0, [x]).1 == [x]
  {
    assert SpliceStart(-1, |s|) == if |s| >= 1 then |s| - 1 else 0;
  }

  /** The two splices of a move up from a position below the top swap the entry with its predecessor. */
  lemma MoveUpSwaps<T>(prev: seq<T>, index: nat)
    requires 0 < index < |prev|
    ensures Splice(Splice(prev, index, 1, []).1, index - 1, 0, [prev[index]]).1 == SwapAdjacent(prev, index - 1)
  {
    SpliceRemoveOne(prev, index);
    var updated := prev[..index] + prev[index + 1..];
    SpliceInsertOne(updated, index - 1, prev[index]);
    assert updated[..index - 1] == prev[..index - 1];
    assert updated[index - 1..] == [prev[index - 1]] + prev[index + 1..];
    assert updated[..index - 1] + [prev[index]] + updated[index - 1..]
        == prev[..index - 1] + [prev[index + 1 - 1], prev[index - 1]] + prev[index - 1 + 2..];
  }

  /** The two splices of a move up from the top put the first entry just before the last one. */
  lemma MoveUpFromTop<T>(prev: seq<T>)
    requires |prev| >= 2
    ensures Splice(Splice(prev, 0, 1, []).1, -1, 0, [prev[0]]).1
         == prev[1..|prev| - 1] + [prev[0], prev[|prev| - 1]]
  {
    var n := |prev|;
    var updated := Splice(prev, 0, 1, []).1;
    SpliceRemoveOne(prev, 0);
    assert updated == prev[1..];
    SpliceInsertBeforeLast(updated, prev[0]);
    assert updated[..n - 2] == prev[1..n - 1];
    assert updated[n - 2..] == [prev[n - 1]];
    assert updated[..n - 2] + [prev[0]] + updated[n - 2..] == prev[1..n - 1] + [prev[0], prev[n - 1]];
  }

  /** On a one-entry list a move up from the top gives the list back. */
  lemma MoveUpSingle<T>(prev: seq<T>)
    requires |prev| == 1
    ensures Splice(Splice(prev, 0, 1, []).1, -1, 0, [prev[0]]).1 == prev
  {
    SpliceRemoveOne(prev, 0);
    SpliceInsertBeforeLast(prev[1..], prev[0]);
    assert prev == [prev[0]];
  }

  /**
   * `handleMoveUp(index)`: take the entry out at `index` and put it back at
   * `index - 1`. For `index > 0` it swaps the entry with its predecessor; for
   * `index == 0`, where the up button is disabled, JavaScript reads the
   * insertion position -1 from the end, so the first entry lands just before
   * the last one.
   */
  method MoveUp<T>(prev: seq<T>, index: nat) returns (updated: seq<T>)
    requires index < |prev|
    ensures 0 < index ==> updated == SwapAdjacent(prev, index - 1)
    ensures index == 0 && |prev| >= 2 ==> updated == prev[1..|prev| - 1] + [prev[0], prev[|prev| - 1]]
    ensures index == 0 && |prev| == 1 ==> updated == prev
    ensures multiset(updated) == multiset(prev)
  {
    updated := prev;
    var (removed, rest) := Splice(updated, index, 1, []);
    SpliceRemoveOne(updated, index);
    SplicePermutes(updated, index, 1, []);
    updated := rest;
    var moved := removed[0];
    assert multiset(rest) + multiset{moved} == multiset(prev);
    var (_, inserted) := Splice(updated, index - 1, 0, [moved]);
    SplicePermutes(updated, index - 1, 0, [moved]);
    updated := inserted;
    if 0 < index {
      MoveUpSwaps(prev, index);
    } else if |prev| >= 2 {
      MoveUpFromTop(prev);
    } else {
      MoveUpSingle(prev);
    }
  }

  /** The two splices of a move down from above the bottom swap the entry with its successor. */
  lemma MoveDownSwaps<T>(prev: seq<T>, index: nat)
    requires index + 1 < |prev|
    ensures Splice(Splice(prev, index, 1, []).1, index + 1, 0, [prev[index]]).1 == SwapAdjacent(prev, index)
  {
    SpliceRemoveOne(prev, index);
    var updated := prev[..index] + prev[index + 1..];
    SpliceInsertOne(updated, index + 1, prev[index]);
    assert updated[..index + 1] == prev[..index] + [prev[index + 1]];
    assert updated[index + 1..] == prev[index + 2..];
    assert updated[..index + 1] + [prev[index]] + updated[index + 1..]
        == prev[..index] + [prev[index + 1], prev[index]] + prev[index + 2..];
  }

  /** The two splices of a move down from the bottom leave the list as it was. */
  lemma MoveDownFromBottom<T>(prev: seq<T>)
    requires |prev| >= 1
    ensures Splice(Splice(prev, |prev| - 1, 1, []).1, |prev|, 0, [prev[|prev| - 1]]).1 == prev
  {
    var n := |prev|;
    SpliceRemoveOne(prev, n - 1);
    var updated := prev[..n - 1];
    assert Splice(prev, n - 1, 1, []).1 == updated;
    SpliceInsertOne(updated, n - 1, prev[n - 1]);
    assert SpliceStart(n, n - 1) == n - 1;
    assert prev == updated + [prev[n - 1]];
  }

  /**
   * `handleMoveDown(index)`: take the entry out at `index` and put it back at
   * `index + 1`. Below the last index it swaps the entry with its successor;
   * at the last index, where the down button is disabled, the list is unchanged.
   */
  method MoveDown<T>(prev: seq<T>, index: nat) returns (updated: seq<T>)
    requires index < |prev|
    ensures index + 1 < |prev| ==> updated == SwapAdjacent(prev, index)
    ensures index + 1 == |prev| ==> updated == prev
    ensures multiset(updated) == multiset(prev)
  {
    updated := prev;
    var (removed, rest) := Splice(updated, index, 1, []);
    SpliceRemoveOne(updated, index);
    SplicePermutes(updated, index, 1, []);
    updated := rest;
    var moved := removed[0];
    assert multiset(rest) + multiset{moved} == multiset(prev);
    var (_, inserted) := Splice(updated, index + 1, 0, [moved]);
    SplicePermutes(updated, index + 1, 0, [moved]);
    updated := inserted;
    if index + 1 < |prev| {
      MoveDownSwaps(prev, index);
    } else {
      MoveDownFromBottom(prev);
    }
  }

  /**
   * `list.filter((_, i) => i !== index)`: the entry at `index` is removed and
   * the others keep their order; an index outside the list removes nothing.
   */
  function RemoveAt<T>(s: seq<T>, index: int): (r: seq<T>)
    ensures 0 <= index < |s| ==> |r| == |s| - 1 && multiset(r) + multiset{s[index]} == multiset(s)
    ensures 0 <= index < |s| ==> forall k :: 0 <= k < |r| ==> r[k] == (if k < index then s[k] else s[k + 1])
    ensures !(0 <= index < |s|) ==> r == s
  {
    if 0 <= index < |s| then
      assert s == s[..index] + [s[index]] + s[index + 1..];
      s[..index] + s[index + 1..]
    else s
  }

  /** Removing what was just appended gives the list back. */
  lemma RemoveAppended<T>(s: seq<T>, x: T)
    ensures RemoveAt(s + [x], |s|) == s
  {
  }

  /**
   * `list.map((e, i) => i === index ? f(e) : e)`: only the entry at `index`
   * changes, and an index outside the list changes nothing.
   */
  function MapAt<T>(s: seq<T>, index: int, f: T -> T): (r: seq<T>)
    ensures |r| == |s|
    ensures 0 <= index < |s| ==> r[index] == f(s[index])
    ensures forall k :: 0 <= k < |s| && k != index ==> r[k] == s[k]
  {
    seq(|s|, k requires 0 <= k < |s| => if k == index then f(s[k]) else s[k])
  }
}
