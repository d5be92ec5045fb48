/** Subsequences: some elements left out, the others in order. */
module Subsequences {
  predicate Sub<T(==)>(xs: seq<T>, ys: seq<T>)
    decreases |ys|
  {
    if xs == [] then true
    else if ys == [] then false
    else
      || (xs[|xs| - 1] == ys[|ys| - 1] && Sub(xs[..|xs| - 1], ys[..|ys| - 1]))
      || Sub(xs, ys[..|ys| - 1])
  }

  lemma SubAppend<T>(xs: seq<T>, ys: seq<T>, more: seq<T>)
    requires Sub(xs, ys) && |more| <= 1
    ensures Sub(xs + more, ys + more)
  {
    if more == [] {
      assert xs + more == xs && ys + more == ys;
    } else {
      assert (xs + more)[..|xs|] == xs && (ys + more)[..|ys|] == ys;
    }
  }

  lemma SubWider<T>(xs: seq<T>, ys: seq<T>, last: T)
    requires Sub(xs, ys)
    ensures Sub(xs, ys + [last])
  {
    assert (ys + [last])[..|ys|] == ys;
  }

  lemma {:induction false} SubPrefix<T>(xs: seq<T>, last: T, ys: seq<T>)
    requires Sub(xs + [last], ys)
    ensures Sub(xs, ys)
    decreases |ys|
  {
    var all, front := xs + [last], ys[..|ys| - 1];
    assert all[..|all| - 1] == xs;
    if last == ys[|ys| - 1] && Sub(xs, front) {
      SubWider(xs, front, ys[|ys| - 1]);
      assert front + [ys[|ys| - 1]] == ys;
    } else {
      SubPrefix(xs, last, front);
      SubWider(xs, front, ys[|ys| - 1]);
      assert front + [ys[|ys| - 1]] == ys;
    }
  }

  /** A subsequence is no longer, and one of the same length is the whole. */
  lemma {:induction false} SubSize<T>(xs: seq<T>, ys: seq<T>)
    requires Sub(xs, ys)
    ensures |xs| <= |ys|
    ensures |xs| == |ys| ==> xs == ys
    decreases |ys|
  {
    if xs != [] {
      var x, y := xs[..|xs| - 1], ys[..|ys| - 1];
      if xs[|xs| - 1] == ys[|ys| - 1] && Sub(x, y) {
        SubSize(x, y);
        assert xs == x + [xs[|xs| - 1]] && ys == y + [ys[|ys| - 1]];
      } else {
        SubSize(xs, y);
      }
    }
  }

  /** `xs` is `ys` with `lost` elements left out. */
  predicate Less<T(==)>(xs: seq<T>, ys: seq<T>, lost: int) {
    Sub(xs, ys) && |ys| == |xs| + lost
  }

  lemma LessBoth<T>(xs: seq<T>, ys: seq<T>, more: seq<T>, lost: int)
    requires Less(xs, ys, lost) && |more| <= 1
    ensures Less(xs + more, ys + more, lost)
  {
    SubAppend(xs, ys, more);
  }

  lemma LessOne<T>(xs: seq<T>, last: seq<T>, ys: seq<T>, lost: int)
    requires Less(xs + last, ys, lost) && |last| == 1
    ensures Less(xs, ys + [], lost + 1)
  {
    assert ys + [] == ys && last == [last[0]];
    SubPrefix(xs, last[0], ys);
  }
}
