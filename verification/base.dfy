/** Small shared vocabulary: an optional value, the subsequence relation, and facts
    about where the pieces of a concatenated sequence sit. */
module Base {

  /** A value that may be absent (Rust's `Option`). */
  datatype Option<+T> = None | Some(value: T)

  /** The elements of `o`, as a sequence of length zero or one. */
  function OptionToSeq<T>(o: Option<T>): (s: seq<T>)
    ensures |s| <= 1
    ensures o.Some? <==> |s| == 1
    ensures o.Some? ==> s[0] == o.value
  {
    match o
    case None => []
    case Some(v) => [v]
  }

  /** `a` can be obtained from `b` by deleting elements, keeping the order of the rest. */
  ghost predicate IsSubsequence<T>(a: seq<T>, b: seq<T>)
    decreases |b|
  {
    if |b| == 0 then |a| == 0
    else
      IsSubsequence(a, b[..|b| - 1])
      || (|a| > 0 && a[|a| - 1] == b[|b| - 1] && IsSubsequence(a[..|a| - 1], b[..|b| - 1]))
  }

  lemma SubsequenceExtendRight<T>(a: seq<T>, b: seq<T>, x: T)
    requires IsSubsequence(a, b)
    ensures IsSubsequence(a, b + [x])
    ensures IsSubsequence(a + [x], b + [x])
  {
    assert (b + [x])[..|b|] == b;
    assert (a + [x])[..|a|] == a;
  }

  /** Deleting the last element of a subsequence keeps it a subsequence. */
  lemma {:induction false} SubsequenceDropLast<T>(a: seq<T>, b: seq<T>)
    requires |a| > 0 && IsSubsequence(a, b)
    ensures IsSubsequence(a[..|a| - 1], b)
    decreases |b|
  {
    var b' := b[..|b| - 1];
    assert b == b' + [b[|b| - 1]];
    if IsSubsequence(a, b') {
      SubsequenceDropLast(a, b');
      SubsequenceExtendRight(a[..|a| - 1], b', b[|b| - 1]);
    } else {
      SubsequenceExtendRight(a[..|a| - 1], b', b[|b| - 1]);
    }
  }

  /** Every element of a subsequence is an element of the whole. */
  lemma {:induction false} SubsequenceMembers<T>(a: seq<T>, b: seq<T>)
    requires IsSubsequence(a, b)
    ensures forall x :: x in a ==> x in b
    decreases |b|
  {
    if |b| > 0 {
      var b' := b[..|b| - 1];
      if IsSubsequence(a, b') {
        SubsequenceMembers(a, b');
      } else {
        SubsequenceMembers(a[..|a| - 1], b');
        assert a == a[..|a| - 1] + [a[|a| - 1]];
      }
      assert b == b' + [b[|b| - 1]];
    }
  }

  /** Where each of five concatenated pieces sits in the whole. */
  lemma ConcatPieces<T>(s: seq<T>, a: seq<T>, b: seq<T>, c: seq<T>, d: seq<T>, e: seq<T>)
    requires s == a + b + c + d + e
    ensures var i2 := |a| + |b|;
            var i3 := i2 + |c|;
            && |s| == i3 + |d| + |e|
            && s[..|a|] == a
            && s[|a|..i2] == b
            && s[i2..i3] == c
            && s[i3..i3 + |d|] == d
            && s[i3 + |d|..] == e
  {
    assert s == a + (b + (c + (d + e)));
    assert s[|a|..] == b + (c + (d + e));
    assert s[|a| + |b|..] == c + (d + e);
    assert s[|a| + |b| + |c|..] == d + e;
  }

  /** The elements of the middle piece of five, by position in the whole. */
  lemma MiddlePieceAt<T>(s: seq<T>, a: seq<T>, b: seq<T>, c: seq<T>, d: seq<T>, e: seq<T>)
    requires s == a + b + c + d + e
    ensures |s| == |a| + |b| + |c| + |d| + |e|
    ensures forall i :: 0 <= i < |c| ==> s[|a| + |b| + i] == c[i]
  {
    forall i | 0 <= i < |c|
      ensures s[|a| + |b| + i] == c[i]
    {
      assert s == (a + b) + c + (d + e);
    }
  }

  lemma AppendAssoc<T>(a: seq<T>, b: seq<T>, c: seq<T>)
    ensures a + (b + c) == (a + b) + c
  {
  }

  /** Each element of `xs` preceded by `lead`: `[lead, xs[0], lead, xs[1], ...]`. */
  function PrefixEach<T>(lead: T, xs: seq<T>): (r: seq<T>)
    ensures |r| == 2 * |xs|
    ensures forall i :: 0 <= i < |xs| ==> r[2 * i] == lead && r[2 * i + 1] == xs[i]
    decreases |xs|
  {
    if |xs| == 0 then []
    else PrefixEach(lead, xs[..|xs| - 1]) + [lead, xs[|xs| - 1]]
  }

  /** `PrefixEach` is the only list with its layout. */
  lemma PrefixEachUnique<T>(a: seq<T>, lead: T, xs: seq<T>)
    requires |a| == 2 * |xs|
    requires forall i :: 0 <= i < |xs| ==> a[2 * i] == lead && a[2 * i + 1] == xs[i]
    ensures a == PrefixEach(lead, xs)
  {
    var r := PrefixEach(lead, xs);
    forall k | 0 <= k < |a|
      ensures a[k] == r[k]
    {
      var i := k / 2;
      assert a[2 * i] == r[2 * i] && a[2 * i + 1] == r[2 * i + 1];
      assert k == 2 * i || k == 2 * i + 1;
    }
  }

  /** The last element of a list grown by one. */
  lemma SnocParts<T>(a: seq<T>, x: T)
    ensures (a + [x])[..|a|] == a && (a + [x])[|a|] == x
  {
  }

  /** The three pieces of `a + b + c` as slices of the whole. */
  lemma ThreePieces<T>(s: seq<T>, a: seq<T>, b: seq<T>, c: seq<T>)
    requires s == a + b + c
    ensures |s| == |a| + |b| + |c|
    ensures s[..|a|] == a && s[|a|..|a| + |b|] == b && s[|a| + |b|..] == c
  {
    assert s == a + (b + c);
    assert s[|a|..] == b + c;
  }

  lemma SplitAt<T>(s: seq<T>, a: seq<T>, b: seq<T>)
    requires s == a + b
    ensures s[..|a|] == a && s[|a|..] == b
  {
  }

  lemma TakeDropJoin<T>(s: seq<T>, n: nat)
    requires n <= |s|
    ensures s[..n] + s[n..] == s
  {
  }

  lemma ConsThree<T>(x: T, a: T, b: T, c: T)
    ensures [x] + [a, b, c] == [x, a, b, c]
  {
  }

  lemma ConsFour<T>(x: T, a: T, b: T, c: T, d: T)
    ensures [x] + [a, b, c, d] == [x, a, b, c, d]
  {
  }

  lemma SnocSplit<T>(s: seq<T>)
    requires |s| > 0
    ensures s == s[..|s| - 1] + [s[|s| - 1]]
  {
  }

  lemma ConsSplit<T>(s: seq<T>)
    requires |s| > 0
    ensures s == [s[0]] + s[1..]
  {
  }

  lemma PairConcat<T>(x: T, y: T)
    ensures [x] + [y] == [x, y]
  {
  }

  lemma EmptyConcat<T>(s: seq<T>)
    ensures [] + s == s
  {
  }
}
