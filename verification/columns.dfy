/** The three-column layout of app/gallery/page.tsx: `leftImages`, `centerImages` and
    `rightImages` keep the images whose index is 0, 1 and 2 modulo 3. */
module Columns {

  /** `s.filter((_, index) => index % 3 === r)`, scanning indices from `i` on. */
  function FilterFrom<T>(s: seq<T>, r: nat, i: nat): (kept: seq<T>)
    ensures i <= |s| ==> |kept| <= |s| - i
    ensures forall x :: x in kept ==> exists k :: i <= k < |s| && s[k] == x
    decreases |s| - i
  {
    if i >= |s| then [] else (if i % 3 == r then [s[i]] else []) + FilterFrom(s, r, i + 1)
  }

  /** The column holding the images whose index is `r` modulo 3: a sub-list of the
      images, never longer. */
  function Column<T>(s: seq<T>, r: nat): (col: seq<T>)
    ensures |col| <= |s|
    ensures forall x :: x in col ==> x in s
  {
    FilterFrom(s, r, 0)
  }

  /** `leftImages`: the images at indices 0, 3, 6, ... in order. */
  function Left<T>(s: seq<T>): (l: seq<T>)
    ensures |l| == (|s| + 2) / 3
    ensures forall j :: 0 <= j < |l| ==> l[j] == s[3 * j]
  {
    ColumnContents(s, 0); Column(s, 0)
  }

  /** `centerImages`: the images at indices 1, 4, 7, ... in order. */
  function Center<T>(s: seq<T>): (c: seq<T>)
    ensures |c| == (|s| + 1) / 3
    ensures forall j :: 0 <= j < |c| ==> c[j] == s[3 * j + 1]
  {
    ColumnContents(s, 1); Column(s, 1)
  }

  /** `rightImages`: the images at indices 2, 5, 8, ... in order. */
  function Right<T>(s: seq<T>): (r: seq<T>)
    ensures |r| == |s| / 3
    ensures forall j :: 0 <= j < |r| ==> r[j] == s[3 * j + 2]
  {
    ColumnContents(s, 2); Column(s, 2)
  }

  /** The number of indices below `n` that are `r` modulo 3. */
  function ColumnSize(n: nat, r: nat): nat
    requires r < 3
  {
    (n + 2 - r) / 3
  }

  /** The first element of each non-empty list, in left, center, right order. */
  function Heads<T>(l: seq<T>, c: seq<T>, r: seq<T>): seq<T>
  {
    (if l == [] then [] else [l[0]]) + (if c == [] then [] else [c[0]])
      + (if r == [] then [] else [r[0]])
  }

  /** A list without its first element, if it has one. */
  function Rest<T>(s: seq<T>): seq<T>
  {
    if s == [] then [] else s[1..]
  }

  /** Round-robin interleaving: one element from each list in turn, skipping lists
      that have run out, until all three have. */
  function Interleave<T>(l: seq<T>, c: seq<T>, r: seq<T>): (merged: seq<T>)
    ensures |merged| == |l| + |c| + |r|
    decreases |l| + |c| + |r|
  {
    if l == [] && c == [] && r == [] then []
    else Heads(l, c, r) + Interleave(Rest(l), Rest(c), Rest(r))
  }

  /** Scanning three indices further on a list equals scanning its suffix after three
      elements, since shifting by 3 keeps every residue. */
  lemma {:induction false} FilterShift<T>(s: seq<T>, r: nat, i: nat)
    requires |s| >= 3
    ensures FilterFrom(s, r, i + 3) == FilterFrom(s[3..], r, i)
    decreases |s| - i
  {
    if i + 3 < |s| {
      FilterShift(s, r, i + 1);
      assert s[3..][i] == s[i + 3];
      assert (i + 3) % 3 == i % 3;
    }
  }

  /** A column of a list of three or more is its first element in that residue
      followed by the column of the rest after three elements. */
  lemma ColumnStep<T>(s: seq<T>, r: nat)
    requires r < 3 && |s| >= 3
    ensures Column(s, r) == [s[r]] + Column(s[3..], r)
  {
    FilterShift(s, r, 0);
    assert FilterFrom(s, r, 0) == (if r == 0 then [s[0]] else []) + FilterFrom(s, r, 1);
    assert FilterFrom(s, r, 1) == (if r == 1 then [s[1]] else []) + FilterFrom(s, r, 2);
    assert FilterFrom(s, r, 2) == (if r == 2 then [s[2]] else []) + FilterFrom(s, r, 3);
  }

  /** A column of a list shorter than three holds at most the element at index `r`. */
  lemma ColumnSmall<T>(s: seq<T>, r: nat)
    requires r < 3 && |s| < 3
    ensures Column(s, r) == if r < |s| then [s[r]] else []
  {
    if |s| > 0 {
      assert FilterFrom(s, r, 0) == (if r == 0 then [s[0]] else []) + FilterFrom(s, r, 1);
    }
    if |s| > 1 {
      assert FilterFrom(s, r, 1) == (if r == 1 then [s[1]] else []) + FilterFrom(s, r, 2);
    }
  }

  /** Column `r` holds exactly the elements at indices 3j + r, in increasing j, and
      as many of them as there are such indices. */
  lemma {:induction false} ColumnContents<T>(s: seq<T>, r: nat)
    requires r < 3
    ensures |Column(s, r)| == ColumnSize(|s|, r)
    ensures forall j :: 0 <= j < |Column(s, r)| ==> Column(s, r)[j] == s[3 * j + r]
    decreases |s|
  {
    if |s| < 3 {
      ColumnSmall(s, r);
    } else {
      ColumnStep(s, r);
      ColumnContents(s[3..], r);
      var col := Column(s, r);
      forall j | 0 <= j < |col|
        ensures col[j] == s[3 * j + r]
      {
        if j > 0 {
          assert col[j] == Column(s[3..], r)[j - 1];
          assert s[3..][3 * (j - 1) + r] == s[3 * j + r];
        }
      }
    }
  }

  /** The contents of column `r` determine it: any list of the right length whose
      j-th element is the one at index 3j + r is that column. */
  lemma ColumnUnique<T>(s: seq<T>, r: nat, col: seq<T>)
    requires r < 3
    requires |col| == ColumnSize(|s|, r)
    requires forall j :: 0 <= j < |col| ==> 3 * j + r < |s| && col[j] == s[3 * j + r]
    ensures col == Column(s, r)
  {
    ColumnContents(s, r);
  }

  /** Every element lands in exactly one place: the one at index i is at position
      i / 3 of column i % 3, and the three column lengths add up to the list's. */
  lemma Partition<T>(s: seq<T>)
    ensures |Left(s)| + |Center(s)| + |Right(s)| == |s|
    ensures forall i :: 0 <= i < |s| ==> i / 3 < |Column(s, i % 3)| && Column(s, i % 3)[i / 3] == s[i]
  {
    ColumnContents(s, 0);
    ColumnContents(s, 1);
    ColumnContents(s, 2);
    forall i | 0 <= i < |s|
      ensures i / 3 < |Column(s, i % 3)| && Column(s, i % 3)[i / 3] == s[i]
    {
      assert 3 * (i / 3) + i % 3 == i;
    }
  }

  /** The left column is as long as the center one or one longer, and likewise the
      center against the right. */
  lemma Balanced<T>(s: seq<T>)
    ensures |Left(s)| - |Center(s)| in {0, 1}
    ensures |Center(s)| - |Right(s)| in {0, 1}
  {
    ColumnContents(s, 0);
    ColumnContents(s, 1);
    ColumnContents(s, 2);
  }

  /** Interleaving the three columns round-robin rebuilds the original list exactly. */
  lemma {:induction false} InterleaveRebuilds<T>(s: seq<T>)
    ensures Interleave(Left(s), Center(s), Right(s)) == s
    decreases |s|
  {
    if |s| < 3 {
      ColumnSmall(s, 0);
      ColumnSmall(s, 1);
      ColumnSmall(s, 2);
      if |s| > 0 {
        assert Rest(Left(s)) == [] && Rest(Center(s)) == [] && Rest(Right(s)) == [];
        assert Interleave<T>([], [], []) == [];
      }
    } else {
      ColumnStep(s, 0);
      ColumnStep(s, 1);
      ColumnStep(s, 2);
      InterleaveRebuilds(s[3..]);
      assert Rest(Left(s)) == Left(s[3..]);
      assert Rest(Center(s)) == Center(s[3..]);
      assert Rest(Right(s)) == Right(s[3..]);
      assert Heads(Left(s), Center(s), Right(s)) == s[..3];
      assert s == s[..3] + s[3..];
    }
  }
}
