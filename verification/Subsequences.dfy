/** In-order subsequences. */
module Subsequences {

  ghost predicate Subseq<T>(a: seq<T>, b: seq<T>) {
    a == [] ||
    (b != [] &&
     ((a[|a| - 1] == b[|b| - 1] && Subseq(a[..|a| - 1], b[..|b| - 1])) || Subseq(a, b[..|b| - 1])))
  }

  lemma {:induction false} SubseqExtend<T>(a: seq<T>, b: seq<T>, c: seq<T>)
    requires Subseq(a, b)
    ensures Subseq(a + c, b + c)
  {
    if c == [] {
      assert a + c == a && b + c == b;
    } else {
      SubseqExtend(a, b, c[..|c| - 1]);
      assert (a + c)[..|a + c| - 1] == a + c[..|c| - 1];
      assert (b + c)[..|b + c| - 1] == b + c[..|c| - 1];
    }
  }

  /** Cutting a middle part out of a subsequence leaves a subsequence. */
  lemma {:induction false} SubseqCut<T>(x: seq<T>, y: seq<T>, z: seq<T>, b: seq<T>)
    requires Subseq(x + y + z, b)
    ensures Subseq(x + z, b)
    decreases |b|, |y|
  {
    var a := x + y + z;
    if y == [] {
      assert a == x + z;
    } else if x + z != [] {
      var last := b[..|b| - 1];
      if a[|a| - 1] == b[|b| - 1] && Subseq(a[..|a| - 1], last) {
        if z == [] {
          assert a[..|a| - 1] == x + y[..|y| - 1] + z;
          SubseqCut(x, y[..|y| - 1], z, last);
        } else {
          assert a[..|a| - 1] == x + y + z[..|z| - 1];
          SubseqCut(x, y, z[..|z| - 1], last);
          assert (x + z)[..|x + z| - 1] == x + z[..|z| - 1];
        }
      } else {
        SubseqCut(x, y, z, last);
      }
    }
  }
}
