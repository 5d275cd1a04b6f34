/** Sequence helpers standing in for the numpy idioms the pipeline is written in:
    element-wise maps, boolean-mask indexing (`a[mask]`), order-preserving
    subsequences, reversal (`[::-1]`) and a sort by an integer key (`np.argsort`). */
module Seqs {

  /** Element-wise application of `f`, as a vectorised numpy expression. */
  function Map<A, B>(f: A -> B, s: seq<A>): (r: seq<B>)
    ensures |r| == |s|
    ensures forall i :: 0 <= i < |s| ==> r[i] == f(s[i])
  {
    seq(|s|, i requires 0 <= i < |s| => f(s[i]))
  }

  lemma MapAppend<A, B>(f: A -> B, a: seq<A>, b: seq<A>)
    ensures Map(f, a + b) == Map(f, a) + Map(f, b)
  {
  }

  /** Taking out position `j` takes one copy of `s[j]` out of the multiset. */
  lemma MultisetRemove<T>(s: seq<T>, j: int)
    requires 0 <= j < |s|
    ensures multiset(s) == multiset{s[j]} + multiset(s[..j] + s[j + 1..])
  {
    assert s == s[..j] + [s[j]] + s[j + 1..];
  }

  lemma MultisetCancel<T>(a: T, p: multiset<T>, q: multiset<T>)
    requires multiset{a} + p == multiset{a} + q
    ensures p == q
  {
    assert p == (multiset{a} + p) - multiset{a};
  }

  /** Taking out position `j` before or after a map gives the same sequence. */
  lemma MapRemove<A, B>(f: A -> B, s: seq<A>, j: int)
    requires 0 <= j < |s|
    ensures multiset(Map(f, s)) == multiset{f(s[j])} + multiset(Map(f, s[..j] + s[j + 1..]))
  {
    var m := Map(f, s);
    MultisetRemove(m, j);
    assert m[..j] + m[j + 1..] == Map(f, s[..j] + s[j + 1..]);
  }

  lemma MapHead<A, B>(f: A -> B, s: seq<A>)
    requires |s| > 0
    ensures multiset(Map(f, s)) == multiset{f(s[0])} + multiset(Map(f, s[1..]))
  {
    MapRemove(f, s, 0);
    assert s[..0] + s[1..] == s[1..];
  }

  /** A map depends only on the multiset of its argument: permuting the input
      permutes the output. */
  lemma {:induction false} MapMultiset<A, B>(f: A -> B, x: seq<A>, y: seq<A>)
    requires multiset(x) == multiset(y)
    ensures multiset(Map(f, x)) == multiset(Map(f, y))
    decreases |x|
  {
    if |x| == 0 {
      assert y == [];
    } else {
      var a := x[0];
      MultisetHead(x);
      assert a in multiset(y);
      assert a in y;
      var j :| 0 <= j < |y| && y[j] == a;
      var rest := y[..j] + y[j + 1..];
      MultisetRemove(y, j);
      assert multiset{a} + multiset(x[1..]) == multiset{a} + multiset(rest);
      MultisetCancel(a, multiset(x[1..]), multiset(rest));
      MapMultiset(f, x[1..], rest);
      MapHead(f, x);
      MapRemove(f, y, j);
      assert multiset(Map(f, x)) == multiset{f(a)} + multiset(Map(f, x[1..]));
      assert multiset(Map(f, y)) == multiset{f(a)} + multiset(Map(f, rest));
    }
  }

  /** Number of true entries of a mask (numpy's `sum(mask)`). */
  function CountTrue(m: seq<bool>): nat
  {
    if |m| == 0 then 0 else (if m[0] then 1 else 0) + CountTrue(m[1..])
  }

  lemma CountTrueAtMost(m: seq<bool>)
    ensures CountTrue(m) <= |m|
  {
  }

  /** A mask with a false entry counts fewer trues than its length. */
  lemma {:induction false} CountTrueBelow(m: seq<bool>, k: int)
    requires 0 <= k < |m| && !m[k]
    ensures CountTrue(m) < |m|
  {
    if k == 0 {
      CountTrueAtMost(m[1..]);
    } else {
      CountTrueBelow(m[1..], k - 1);
    }
  }

  /** Boolean-mask indexing `s[mask]`: the elements whose mask entry is true,
      in their original order. */
  function Select<T>(s: seq<T>, mask: seq<bool>): (r: seq<T>)
    requires |mask| == |s|
    ensures |r| == CountTrue(mask)
  {
    if |s| == 0 then [] else (if mask[0] then [s[0]] else []) + Select(s[1..], mask[1..])
  }

  lemma {:induction false} SelectAllTrue<T>(s: seq<T>, mask: seq<bool>)
    requires |mask| == |s|
    requires forall k :: 0 <= k < |mask| ==> mask[k]
    ensures Select(s, mask) == s
  {
    if |s| > 0 {
      SelectAllTrue(s[1..], mask[1..]);
    }
  }

  lemma {:induction false} SelectAppend<T>(a: seq<T>, b: seq<T>, ma: seq<bool>, mb: seq<bool>)
    requires |ma| == |a| && |mb| == |b|
    ensures Select(a + b, ma + mb) == Select(a, ma) + Select(b, mb)
  {
    if |a| == 0 {
      assert a + b == b;
      assert ma + mb == mb;
    } else {
      assert (a + b)[1..] == a[1..] + b;
      assert (ma + mb)[1..] == ma[1..] + mb;
      SelectAppend(a[1..], b, ma[1..], mb);
    }
  }

  /** Two masks that are never both true count at most one true per position. */
  lemma {:induction false} CountTrueDisjoint(m1: seq<bool>, m2: seq<bool>)
    requires |m1| == |m2|
    requires forall k :: 0 <= k < |m1| ==> !(m1[k] && m2[k])
    ensures CountTrue(m1) + CountTrue(m2) <= |m1|
  {
    if |m1| > 0 {
      assert forall k :: 0 <= k < |m1| - 1 ==> m1[1..][k] == m1[k + 1] && m2[1..][k] == m2[k + 1];
      CountTrueDisjoint(m1[1..], m2[1..]);
    }
  }

  /** One step of `Select`, read as multisets. */
  lemma SelectHead<T>(s: seq<T>, m: seq<bool>)
    requires |m| == |s| > 0
    ensures multiset(Select(s, m)) == (if m[0] then multiset{s[0]} else multiset{}) + multiset(Select(s[1..], m[1..]))
  {
    var h: seq<T> := if m[0] then [s[0]] else [];
    assert Select(s, m) == h + Select(s[1..], m[1..]);
    assert multiset(h) == if m[0] then multiset{s[0]} else multiset{};
  }

  lemma MultisetHead<T>(s: seq<T>)
    requires |s| > 0
    ensures multiset(s) == multiset{s[0]} + multiset(s[1..])
  {
    assert s == [s[0]] + s[1..];
  }

  /** Selecting with a mask and with its complement splits a sequence's elements
      between the two results. */
  lemma {:induction false} SelectComplement<T>(s: seq<T>, m1: seq<bool>, m2: seq<bool>)
    requires |m1| == |s| && |m2| == |s|
    requires forall k :: 0 <= k < |s| ==> m1[k] != m2[k]
    ensures multiset(Select(s, m1)) + multiset(Select(s, m2)) == multiset(s)
  {
    if |s| > 0 {
      assert forall k :: 0 <= k < |s| - 1 ==> m1[1..][k] == m1[k + 1] && m2[1..][k] == m2[k + 1];
      SelectComplement(s[1..], m1[1..], m2[1..]);
      SelectHead(s, m1);
      SelectHead(s, m2);
      MultisetHead(s);
      assert m1[0] != m2[0];
    }
  }

  /** `f` lists, in increasing order, the positions of `y` that `x` was taken from. */
  ghost predicate SubsequenceBy<T>(x: seq<T>, y: seq<T>, f: seq<int>)
  {
    && |f| == |x|
    && (forall i :: 0 <= i < |f| ==> 0 <= f[i] < |y| && x[i] == y[f[i]])
    && (forall i, j :: 0 <= i < j < |f| ==> f[i] < f[j])
  }

  /** `x` is `y` with some elements deleted, order and contents of the rest unchanged. */
  ghost predicate IsSubsequence<T>(x: seq<T>, y: seq<T>)
  {
    exists f :: SubsequenceBy(x, y, f)
  }

  lemma SubsequenceRefl<T>(x: seq<T>)
    ensures IsSubsequence(x, x)
  {
    var f := seq(|x|, i requires 0 <= i < |x| => i);
    assert SubsequenceBy(x, x, f);
  }

  lemma SubsequenceTrans<T>(x: seq<T>, y: seq<T>, z: seq<T>)
    requires IsSubsequence(x, y) && IsSubsequence(y, z)
    ensures IsSubsequence(x, z)
  {
    var f :| SubsequenceBy(x, y, f);
    var g :| SubsequenceBy(y, z, g);
    var h := seq(|f|, i requires 0 <= i < |f| => if 0 <= f[i] < |g| then g[f[i]] else 0);
    assert SubsequenceBy(x, z, h);
  }

  /** The positions that `s[mask]` keeps: exactly the true entries of the mask, in order. */
  lemma {:induction false} SelectIndices<T>(s: seq<T>, mask: seq<bool>) returns (f: seq<int>)
    requires |mask| == |s|
    ensures SubsequenceBy(Select(s, mask), s, f)
    ensures forall i :: 0 <= i < |f| ==> 0 <= f[i] < |mask| && mask[f[i]]
  {
    if |s| == 0 {
      f := [];
    } else {
      var g := SelectIndices(s[1..], mask[1..]);
      f := ShiftIndices(s, mask, g);
    }
  }

  /** The positions `g` of a tail, moved one place right, with position 0 in front
      when `first` holds; still strictly increasing. */
  lemma ShiftPositions(g: seq<int>, first: bool) returns (f: seq<int>)
    requires forall i :: 0 <= i < |g| ==> 0 <= g[i]
    requires forall i, j :: 0 <= i < j < |g| ==> g[i] < g[j]
    ensures |f| == |g| + (if first then 1 else 0)
    ensures first ==> f[0] == 0
    ensures forall i :: (if first then 1 else 0) <= i < |f| ==> f[i] == g[i - (if first then 1 else 0)] + 1
    ensures forall i, j :: 0 <= i < j < |f| ==> f[i] < f[j]
  {
    var d := if first then 1 else 0;
    f := (if first then [0] else []) + seq(|g|, i requires 0 <= i < |g| => g[i] + 1);
    forall i, j | 0 <= i < j < |f|
      ensures f[i] < f[j]
    {
      assert f[j] == g[j - d] + 1;
      if i >= d {
        assert f[i] == g[i - d] + 1;
        assert g[i - d] < g[j - d];
      }
    }
  }

  /** One step of SelectIndices: from the positions kept in the tail to those kept in `s`. */
  lemma ShiftIndices<T>(s: seq<T>, mask: seq<bool>, g: seq<int>) returns (f: seq<int>)
    requires |mask| == |s| > 0
    requires SubsequenceBy(Select(s[1..], mask[1..]), s[1..], g)
    requires forall i :: 0 <= i < |g| ==> 0 <= g[i] < |mask| - 1 && mask[1..][g[i]]
    ensures SubsequenceBy(Select(s, mask), s, f)
    ensures forall i :: 0 <= i < |f| ==> 0 <= f[i] < |mask| && mask[f[i]]
  {
    var d := if mask[0] then 1 else 0;
    f := ShiftPositions(g, mask[0]);
    assert |Select(s, mask)| == |f|;
    forall i | 0 <= i < |f|
      ensures 0 <= f[i] < |s| && Select(s, mask)[i] == s[f[i]] && mask[f[i]]
    {
      SelectAt(s, mask, i);
      if i >= d {
        var k := i - d;
        assert f[i] == g[k] + 1;
        assert s[1..][g[k]] == s[g[k] + 1];
        assert mask[1..][g[k]] == mask[g[k] + 1];
      }
    }
  }

  /** Element `i` of `Select(s, mask)`, read off the first step of its definition. */
  lemma SelectAt<T>(s: seq<T>, mask: seq<bool>, i: int)
    requires |mask| == |s| > 0
    requires 0 <= i < |Select(s, mask)|
    ensures mask[0] && i == 0 ==> Select(s, mask)[i] == s[0]
    ensures !(mask[0] && i == 0) ==> Select(s, mask)[i] == Select(s[1..], mask[1..])[i - (if mask[0] then 1 else 0)]
  {
    assert Select(s, mask) == (if mask[0] then [s[0]] else []) + Select(s[1..], mask[1..]);
  }

  lemma SelectIsSubsequence<T>(s: seq<T>, mask: seq<bool>)
    requires |mask| == |s|
    ensures IsSubsequence(Select(s, mask), s)
  {
    var f := SelectIndices(s, mask);
  }

  /** Every element of `s[mask]` is an element of `s` whose mask entry is true. */
  lemma SelectMember<T>(s: seq<T>, mask: seq<bool>, x: T)
    requires |mask| == |s| && x in Select(s, mask)
    ensures exists k :: 0 <= k < |s| && mask[k] && s[k] == x
  {
    var f := SelectIndices(s, mask);
    var i :| 0 <= i < |Select(s, mask)| && Select(s, mask)[i] == x;
    assert mask[f[i]] && s[f[i]] == x;
  }

  /** Conversely, every element whose mask entry is true is kept. */
  lemma {:induction false} SelectKeeps<T>(s: seq<T>, mask: seq<bool>, k: int)
    requires |mask| == |s| && 0 <= k < |s| && mask[k]
    ensures s[k] in Select(s, mask)
  {
    if k > 0 {
      SelectKeeps(s[1..], mask[1..], k - 1);
    }
  }

  /** Reversal, numpy's `[::-1]`. */
  function Reversed<T>(s: seq<T>): (r: seq<T>)
    ensures |r| == |s|
    ensures forall k :: 0 <= k < |s| ==> r[k] == s[|s| - 1 - k]
  {
    if |s| == 0 then [] else Reversed(s[1..]) + [s[0]]
  }

  lemma {:induction false} ReversedMultiset<T>(s: seq<T>)
    ensures multiset(Reversed(s)) == multiset(s)
  {
    if |s| > 0 {
      ReversedMultiset(s[1..]);
      assert s == [s[0]] + s[1..];
    }
  }

  ghost predicate SortedBy<T>(s: seq<T>, key: T -> int)
  {
    forall i, j :: 0 <= i < j < |s| ==> key(s[i]) <= key(s[j])
  }

  ghost predicate SortedDescBy<T>(s: seq<T>, key: T -> int)
  {
    forall i, j :: 0 <= i < j < |s| ==> key(s[i]) >= key(s[j])
  }

  lemma ReversedSortedDesc<T>(s: seq<T>, key: T -> int)
    requires SortedBy(s, key)
    ensures SortedDescBy(Reversed(s), key)
  {
  }

  /** Inserts `x` into a sequence sorted by `key`, before the first element whose key
      is not smaller. */
  function Insert<T>(s: seq<T>, x: T, key: T -> int): (r: seq<T>)
    ensures multiset(r) == multiset(s) + multiset{x}
  {
    if |s| == 0 then [x]
    else if key(x) <= key(s[0]) then [x] + s
    else
      assert s == [s[0]] + s[1..];
      [s[0]] + Insert(s[1..], x, key)
  }

  lemma {:induction false} InsertSorted<T>(s: seq<T>, x: T, key: T -> int)
    requires SortedBy(s, key)
    ensures SortedBy(Insert(s, x, key), key)
  {
    if |s| > 0 && key(x) > key(s[0]) {
      var rest := Insert(s[1..], x, key);
      InsertSorted(s[1..], x, key);
      forall y | y in rest
        ensures key(s[0]) <= key(y)
      {
        assert y in multiset(rest);
        assert y == x || y in multiset(s[1..]);
      }
      assert Insert(s, x, key) == [s[0]] + rest;
    }
  }

  /** A sort by an integer key. It stands for `np.argsort` followed by indexing,
      whose default algorithm is not stable: only the result's order by key and its
      being a permutation of the input are promised, not the order of equal keys. */
  method SortBy<T>(s: seq<T>, key: T -> int) returns (r: seq<T>)
    ensures multiset(r) == multiset(s)
    ensures SortedBy(r, key)
  {
    r := [];
    for i := 0 to |s|
      invariant multiset(r) == multiset(s[..i])
      invariant SortedBy(r, key)
    {
      assert s[..i + 1] == s[..i] + [s[i]];
      InsertSorted(r, s[i], key);
      r := Insert(r, s[i], key);
    }
    assert s[..|s|] == s;
  }
}
