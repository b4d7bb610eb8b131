/**
 * The two `Array.prototype.splice` steps the store uses on a copied array:
 * `splice(k, 1)` removes one element and `splice(k, 0, x)` inserts one.
 * JavaScript normalises the start index: a negative one counts from the end,
 * and both ends are clamped to the array.
 */
module Splice {

  /** The position `splice(k, …)` starts at in an array of length len. */
  function StartIndex(len: nat, k: int): (r: nat)
    ensures r <= len
    ensures 0 <= k <= len ==> r == k
    ensures k >= len ==> r == len
    ensures -(len as int) <= k < 0 ==> r == len + k
    ensures k < -(len as int) ==> r == 0
  {
    if k < 0 then (if len + k < 0 then 0 else len + k)
    else if k > len then len
    else k
  }

  /** `a.splice(k, 1)`: what is left of the array after removing at most one element. */
  function RemoveAt<T>(s: seq<T>, k: int): (r: seq<T>)
    ensures 0 <= k < |s| ==> |r| == |s| - 1 && multiset(r) == multiset(s) - multiset{s[k]}
    ensures k >= |s| ==> r == s
  {
    var a := StartIndex(|s|, k);
    if a < |s| then
      assert s == s[..a] + [s[a]] + s[a + 1..];
      s[..a] + s[a + 1..]
    else s
  }

  /** `a.splice(k, 0, x)`: the array with x inserted at the normalised start. */
  function InsertAt<T>(s: seq<T>, k: int, x: T): (r: seq<T>)
    ensures |r| == |s| + 1 && multiset(r) == multiset(s) + multiset{x}
    ensures r[StartIndex(|s|, k)] == x
  {
    var a := StartIndex(|s|, k);
    assert s == s[..a] + s[a..];
    s[..a] + [x] + s[a..]
  }

  /** Where each remaining element sits after a removal: those behind the gap move up by one. */
  lemma RemoveAtPositions<T>(s: seq<T>, k: nat)
    requires k < |s|
    ensures forall i :: 0 <= i < |s| - 1 ==> RemoveAt(s, k)[i] == if i < k then s[i] else s[i + 1]
  {
    assert RemoveAt(s, k) == s[..k] + s[k + 1..];
  }

  /** Where each old element sits after an insertion: those from the insertion point on move down by one. */
  lemma InsertAtPositions<T>(s: seq<T>, k: int, x: T)
    ensures forall i :: 0 <= i <= |s| && i != StartIndex(|s|, k) ==>
      InsertAt(s, k, x)[i] == if i < StartIndex(|s|, k) then s[i] else s[i - 1]
  {
    var a := StartIndex(|s|, k);
    assert InsertAt(s, k, x) == s[..a] + [x] + s[a..];
  }

  /** Remove the element at `from`, then insert it at `to` in the shortened array. */
  function Move<T>(s: seq<T>, from: int, to: int): (r: seq<T>)
    requires 0 <= from < |s|
    ensures |r| == |s| && multiset(r) == multiset(s)
    ensures r[StartIndex(|s| - 1, to)] == s[from]
  {
    InsertAt(RemoveAt(s, from), to, s[from])
  }

  /**
   * Reference definition of moving an element from one position to another:
   * the element lands at `to` and everything between the two positions shifts
   * by one towards the vacated slot.
   */
  function Shifted<T>(s: seq<T>, from: nat, to: nat): (r: seq<T>)
    requires from < |s| && to < |s|
  {
    seq(|s|, k requires 0 <= k < |s| =>
      if k == to then s[from]
      else if from < to && from <= k < to then s[k + 1]
      else if to < from && to < k <= from then s[k - 1]
      else s[k])
  }

  /** Only the normalised destination matters to a move. */
  lemma MoveNormalised<T>(s: seq<T>, from: nat, to: int)
    requires from < |s|
    ensures StartIndex(|s| - 1, to) < |s|
    ensures Move(s, from, to) == Move(s, from, StartIndex(|s| - 1, to))
  {
  }

  /** Remove-then-insert is the reference move, whichever way the element travels. */
  lemma MoveIsShift<T>(s: seq<T>, from: nat, to: nat)
    requires from < |s| && to < |s|
    ensures Move(s, from, to) == Shifted(s, from, to)
  {
    var t := RemoveAt(s, from);
    var r := Move(s, from, to);
    assert r == InsertAt(t, to, s[from]);
    RemoveAtPositions(s, from);
    InsertAtPositions(t, to, s[from]);
    forall k | 0 <= k < |s|
      ensures r[k] == Shifted(s, from, to)[k]
    {
      if k < to {
        assert r[k] == t[k];
      } else if k > to {
        assert r[k] == t[k - 1];
      }
    }
  }

  /** Removing what was just inserted gives back the sequence. */
  lemma RemoveInserted<T>(u: seq<T>, j: nat, x: T)
    requires j <= |u|
    ensures RemoveAt(InsertAt(u, j, x), j) == u
  {
    var t := InsertAt(u, j, x);
    assert t == u[..j] + [x] + u[j..];
    assert t[..j] == u[..j];
    assert t[j + 1..] == u[j..];
    assert RemoveAt(t, j) == t[..j] + t[j + 1..];
    assert u == u[..j] + u[j..];
  }

  /** Putting a removed element back where it was gives back the sequence. */
  lemma InsertRemoved<T>(s: seq<T>, i: nat)
    requires i < |s|
    ensures InsertAt(RemoveAt(s, i), i, s[i]) == s
  {
    var t := RemoveAt(s, i);
    assert t == s[..i] + s[i + 1..];
    assert t[..i] == s[..i] && t[i..] == s[i + 1..];
    assert InsertAt(t, i, s[i]) == t[..i] + [s[i]] + t[i..];
    assert s == s[..i] + [s[i]] + s[i + 1..];
  }

  /** Moving an element back from where it landed restores the sequence. */
  lemma {:induction false} MoveRoundTrip<T>(s: seq<T>, i: nat, j: nat)
    requires i < |s| && j < |s|
    ensures Move(Move(s, i, j), j, i) == s
  {
    var x := s[i];
    var u := RemoveAt(s, i);
    var t := Move(s, i, j);
    assert t == InsertAt(u, j, x);
    assert t[j] == x;
    RemoveInserted(u, j, x);
    assert Move(t, j, i) == InsertAt(RemoveAt(t, j), i, t[j]);
    InsertRemoved(s, i);
  }

  /** Moving an element to its own position changes nothing. */
  lemma MoveInPlace<T>(s: seq<T>, i: nat)
    requires i < |s|
    ensures Move(s, i, i) == s
  {
    InsertRemoved(s, i);
  }

  /**
   * Moving an element onto another's position: it takes that position, and
   * the displaced element ends up just before it when the move went down the
   * sequence, just after it when the move went up.
   */
  lemma MoveOnto<T>(s: seq<T>, from: nat, to: nat)
    requires from < |s| && to < |s| && from != to
    ensures Move(s, from, to)[to] == s[from]
    ensures Move(s, from, to)[if from < to then to - 1 else to + 1] == s[to]
  {
    MoveIsShift(s, from, to);
  }
}
