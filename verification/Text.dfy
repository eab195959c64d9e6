/** Strings as Python orders and slices them. */
module Text {

  /** Lexicographic order by code point. */
  predicate LexLe(a: string, b: string) {
    a == [] || (b != [] && (a[0] < b[0] || (a[0] == b[0] && LexLe(a[1..], b[1..]))))
  }

  lemma {:induction false} LexLeTotal(a: string, b: string)
    ensures LexLe(a, b) || LexLe(b, a)
    ensures LexLe(a, b) && LexLe(b, a) ==> a == b
  {
    if a != [] && b != [] {
      LexLeTotal(a[1..], b[1..]);
      assert a == [a[0]] + a[1..] && b == [b[0]] + b[1..];
    }
  }

  lemma {:induction false} LexLeTransitive(a: string, b: string, c: string)
    requires LexLe(a, b) && LexLe(b, c)
    ensures LexLe(a, c)
  {
    if a != [] && a[0] == b[0] == c[0] {
      LexLeTransitive(a[1..], b[1..], c[1..]);
    }
  }

  /** A string comes before another if it is a prefix of it, or smaller at the first place where they differ. */
  lemma {:induction false} LexLeIff(a: string, b: string)
    ensures LexLe(a, b) <==> a <= b || exists i :: FirstSmaller(a, b, i)
  {
    if a != [] && b != [] {
      LexLeIff(a[1..], b[1..]);
      assert a == [a[0]] + a[1..] && b == [b[0]] + b[1..];
      if a[0] == b[0] {
        if i :| FirstSmaller(a[1..], b[1..], i) {
          assert FirstSmaller(a, b, i + 1);
        }
        if i :| FirstSmaller(a, b, i) {
          assert FirstSmaller(a[1..], b[1..], i - 1);
        }
      } else if a[0] < b[0] {
        assert FirstSmaller(a, b, 0);
      }
    }
  }

  predicate FirstSmaller(a: string, b: string, i: int) {
    0 <= i < |a| && i < |b| && a[..i] == b[..i] && a[i] < b[i]
  }

  /** The slice xs[:k]: a negative bound counts from the end. */
  function Upto<T>(xs: seq<T>, k: int): (r: seq<T>)
    ensures r <= xs
    ensures 0 <= k ==> |r| == if k <= |xs| then k else |xs|
    ensures k < 0 ==> |r| == if |xs| + k >= 0 then |xs| + k else 0
  {
    if k >= |xs| then xs
    else if k >= 0 then xs[..k]
    else if |xs| + k >= 0 then xs[..|xs| + k]
    else []
  }
}
