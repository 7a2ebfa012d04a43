/** Small shared vocabulary: optional values and a total order on strings. */
module Prelude {

  datatype Option<+T> = None | Some(value: T)

  /** Lexicographic order on strings, character by character. */
  predicate StrLess(a: string, b: string) {
    LessFrom(a, b, 0)
  }

  predicate LessFrom(a: string, b: string, i: nat)
    requires i <= |a| && i <= |b|
    decreases |b| - i
  {
    i < |b| && (i == |a| || a[i] < b[i] || (a[i] == b[i] && LessFrom(a, b, i + 1)))
  }

  lemma {:induction false} LessFromTotal(a: string, b: string, i: nat)
    requires i <= |a| && i <= |b| && a[..i] == b[..i]
    ensures a == b || LessFrom(a, b, i) || LessFrom(b, a, i)
    ensures !(LessFrom(a, b, i) && LessFrom(b, a, i))
    decreases |b| - i
  {
    if i < |a| && i < |b| {
      if a[i] == b[i] {
        assert a[..i + 1] == b[..i + 1];
        LessFromTotal(a, b, i + 1);
      }
    } else if |a| == |b| {
      assert a == a[..i] && b == b[..i];
    }
  }

  /** One string comes first when it is a proper beginning of the other, or has the smaller character where they
      first differ. */
  lemma StrLessIs(a: string, b: string, i: nat)
    requires i <= |a| && i <= |b| && a[..i] == b[..i]
    requires i < |a| && i < |b| ==> a[i] != b[i]
    ensures StrLess(a, b) <==> i < |b| && (i == |a| || a[i] < b[i])
  {
    LessFromSame(a, b, i);
  }

  lemma {:induction false} LessFromSame(a: string, b: string, i: nat)
    requires i <= |a| && i <= |b| && a[..i] == b[..i]
    ensures LessFrom(a, b, 0) <==> LessFrom(a, b, i)
    decreases i
  {
    if i > 0 {
      assert a[..i - 1] == a[..i][..i - 1] && b[..i - 1] == b[..i][..i - 1];
      assert a[i - 1] == a[..i][i - 1] && b[i - 1] == b[..i][i - 1];
      LessFromSame(a, b, i - 1);
    }
  }

  lemma StrLessTotal(a: string, b: string)
    ensures a == b || StrLess(a, b) || StrLess(b, a)
    ensures !(StrLess(a, b) && StrLess(b, a))
    ensures !StrLess(a, a)
  {
    LessFromTotal(a, b, 0);
    LessFromTotal(a, a, 0);
  }

  lemma {:induction false} LessFromTransitive(a: string, b: string, c: string, i: nat)
    requires i <= |a| && i <= |b| && i <= |c| && LessFrom(a, b, i) && LessFrom(b, c, i)
    ensures LessFrom(a, c, i)
    decreases |b| - i
  {
    if i < |a| && a[i] == b[i] && b[i] == c[i] {
      LessFromTransitive(a, b, c, i + 1);
    }
  }

  lemma StrLessTransitive(a: string, b: string, c: string)
    requires StrLess(a, b) && StrLess(b, c)
    ensures StrLess(a, c)
  {
    LessFromTransitive(a, b, c, 0);
  }
}
