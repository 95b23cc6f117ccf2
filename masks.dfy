/** Boolean-mask selection over sequences, the meaning of numpy's `a[mask]`
    indexing and of a list comprehension with a filter: the elements at the
    kept positions, in their original order. */
module Masks {

  /** Number of kept positions in a mask. */
  function Count(keep: seq<bool>): (n: nat)
    ensures n <= |keep|
  {
    if |keep| == 0 then 0
    else Count(keep[..|keep| - 1]) + (if keep[|keep| - 1] then 1 else 0)
  }

  /** `s[keep]`: the elements of `s` whose mask entry is true, in order. */
  function Select<T>(s: seq<T>, keep: seq<bool>): (r: seq<T>)
    requires |keep| == |s|
    ensures |r| == Count(keep)
  {
    if |s| == 0 then []
    else Select(s[..|s| - 1], keep[..|s| - 1]) + (if keep[|s| - 1] then [s[|s| - 1]] else [])
  }

  /** The kept positions of a mask, ascending. */
  function Positions(keep: seq<bool>): (ps: seq<nat>)
    ensures |ps| == Count(keep)
  {
    if |keep| == 0 then []
    else Positions(keep[..|keep| - 1]) + (if keep[|keep| - 1] then [|keep| - 1] else [])
  }

  /** The mask with every entry flipped (the `else` branch of a partition). */
  function Negate(keep: seq<bool>): (r: seq<bool>)
    ensures |r| == |keep|
  {
    seq(|keep|, i requires 0 <= i < |keep| => !keep[i])
  }

  /** Positions lists exactly the kept indices, each once, in ascending order. */
  lemma {:induction false} PositionsSpec(keep: seq<bool>)
    ensures forall k :: 0 <= k < |Positions(keep)| ==>
      Positions(keep)[k] < |keep| && keep[Positions(keep)[k]]
    ensures forall k, l :: 0 <= k < l < |Positions(keep)| ==> Positions(keep)[k] < Positions(keep)[l]
    ensures forall j :: 0 <= j < |keep| && keep[j] ==> j in Positions(keep)
  {
    if |keep| > 0 {
      var init := keep[..|keep| - 1];
      PositionsSpec(init);
      assert forall j :: 0 <= j < |init| ==> init[j] == keep[j];
    }
  }

  /** The k-th selected element is the element at the k-th kept position. */
  lemma {:induction false} SelectAt<T>(s: seq<T>, keep: seq<bool>)
    requires |keep| == |s|
    ensures forall k :: 0 <= k < |Select(s, keep)| ==>
      Positions(keep)[k] < |s| && Select(s, keep)[k] == s[Positions(keep)[k]]
  {
    if |s| > 0 {
      var n := |s| - 1;
      SelectAt(s[..n], keep[..n]);
      PositionsSpec(keep[..n]);
      assert keep[..n] == keep[..|keep| - 1];
    }
  }

  /** The full characterisation of a mask selection: an order-preserving
      filter whose survivors are exactly the kept positions. */
  lemma SelectSpec<T>(s: seq<T>, keep: seq<bool>)
    requires |keep| == |s|
    ensures |Select(s, keep)| == |Positions(keep)| == Count(keep) <= |s|
    ensures forall k :: 0 <= k < |Positions(keep)| ==>
      Positions(keep)[k] < |s| && keep[Positions(keep)[k]] && Select(s, keep)[k] == s[Positions(keep)[k]]
    ensures forall k, l :: 0 <= k < l < |Positions(keep)| ==> Positions(keep)[k] < Positions(keep)[l]
    ensures forall j :: 0 <= j < |s| && keep[j] ==> j in Positions(keep)
  {
    PositionsSpec(keep);
    SelectAt(s, keep);
  }

  /** A mask and its negation split a sequence: every position is kept by
      exactly one of them. */
  lemma {:induction false} CountPartition(keep: seq<bool>)
    ensures Count(keep) + Count(Negate(keep)) == |keep|
  {
    if |keep| > 0 {
      var n := |keep| - 1;
      CountPartition(keep[..n]);
      assert Negate(keep)[..n] == Negate(keep[..n]);
    }
  }

  /** Selecting on a prefix one element longer appends at most that element;
      this is the step a loop that filters element by element takes. */
  lemma SelectExtend<T>(s: seq<T>, keep: seq<bool>, i: nat)
    requires |keep| == |s| && i < |s|
    ensures Select(s[..i + 1], keep[..i + 1]) ==
      Select(s[..i], keep[..i]) + (if keep[i] then [s[i]] else [])
  {
    assert s[..i + 1][..i] == s[..i];
    assert keep[..i + 1][..i] == keep[..i];
  }

  /** An all-false mask selects nothing. */
  lemma {:induction false} SelectNone<T>(s: seq<T>, keep: seq<bool>)
    requires |keep| == |s|
    requires forall i :: 0 <= i < |keep| ==> !keep[i]
    ensures Select(s, keep) == []
  {
    if |s| > 0 {
      SelectNone(s[..|s| - 1], keep[..|s| - 1]);
    }
  }
}
