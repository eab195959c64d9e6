/** The exact McNemar test of experiments/evo3/stats_analysis.py, over exact rationals. */
module McNemar {
  import opened Powers
  import opened Wrappers

  /** Binomial coefficients by Pascal's rule. */
  function Comb(n: nat, k: nat): nat {
    if k == 0 then 1
    else if n == 0 then 0
    else Comb(n - 1, k - 1) + Comb(n - 1, k)
  }

  function Factorial(n: nat): (f: nat)
    ensures f >= 1
  {
    if n == 0 then 1 else n * Factorial(n - 1)
  }

  /** Comb(n, lo) + ... + Comb(n, hi - 1). */
  function Row(n: nat, lo: nat, hi: nat): nat
    decreases hi - lo
  {
    if lo >= hi then 0 else Comb(n, lo) + Row(n, lo + 1, hi)
  }

  function MinNat(x: nat, y: nat): nat {
    if x <= y then x else y
  }

  /** Twice the lower tail, before it is capped at one. */
  function Uncapped(b: nat, c: nat): real {
    (2 * Row(b + c, 0, MinNat(b, c) + 1)) as real / Pow2(b + c) as real
  }

  function PExact(b: nat, c: nat): Option<real> {
    if b + c == 0 then None
    else if Uncapped(b, c) < 1.0 then Some(Uncapped(b, c)) else Some(1.0)
  }

  // ---------- Binomial coefficients ----------

  lemma {:induction false} CombBeyond(n: nat, k: nat)
    requires k > n
    ensures Comb(n, k) == 0
  {
    if n > 0 {
      CombBeyond(n - 1, k - 1);
      CombBeyond(n - 1, k);
    }
  }

  lemma {:induction false} CombPositive(n: nat, k: nat)
    requires k <= n
    ensures Comb(n, k) >= 1
  {
    if k > 0 {
      CombPositive(n - 1, k - 1);
    }
  }

  lemma {:induction false} CombFull(n: nat)
    ensures Comb(n, n) == 1
  {
    if n > 0 {
      CombFull(n - 1);
      CombBeyond(n - 1, n);
    }
  }

  lemma {:induction false} CombSymmetric(n: nat, k: nat)
    requires k <= n
    ensures Comb(n, k) == Comb(n, n - k)
  {
    if k == 0 || k == n {
      CombFull(n);
    } else {
      CombSymmetric(n - 1, k - 1);
      CombSymmetric(n - 1, k);
    }
  }

  /** Pascal's rule gives the coefficients of `math.comb`. */
  lemma {:induction false} CombIsQuotient(n: nat, k: nat)
    requires k <= n
    ensures Comb(n, k) * (Factorial(k) * Factorial(n - k)) == Factorial(n)
  {
    if k == 0 {
    } else if k == n {
      CombFull(n);
    } else {
      CombIsQuotient(n - 1, k - 1);
      CombIsQuotient(n - 1, k);
      PascalProduct(n, k, Comb(n - 1, k - 1), Comb(n - 1, k),
                    Factorial(k - 1), Factorial(n - k - 1), Factorial(n - 1));
    }
  }

  lemma PascalProduct(n: nat, k: nat, left: nat, right: nat, fk: nat, fr: nat, f: nat)
    requires 0 < k < n
    requires left * (fk * ((n - k) * fr)) == f
    requires right * ((k * fk) * fr) == f
    ensures (left + right) * ((k * fk) * ((n - k) * fr)) == n * f
  {
    calc {
      (left + right) * ((k * fk) * ((n - k) * fr));
      left * ((k * fk) * ((n - k) * fr)) + right * ((k * fk) * ((n - k) * fr));
      { assert (k * fk) * ((n - k) * fr) == k * (fk * ((n - k) * fr)); }
      left * (k * (fk * ((n - k) * fr))) + right * ((k * fk) * ((n - k) * fr));
      { assert left * (k * (fk * ((n - k) * fr))) == k * (left * (fk * ((n - k) * fr))); }
      k * f + right * ((k * fk) * ((n - k) * fr));
      { assert (k * fk) * ((n - k) * fr) == (n - k) * ((k * fk) * fr); }
      k * f + right * ((n - k) * ((k * fk) * fr));
      { assert right * ((n - k) * ((k * fk) * fr)) == (n - k) * (right * ((k * fk) * fr)); }
      k * f + (n - k) * f;
      n * f;
    }
  }

  // ---------- Row sums ----------

  lemma {:induction false} RowSplit(n: nat, lo: nat, mid: nat, hi: nat)
    requires lo <= mid <= hi
    ensures Row(n, lo, hi) == Row(n, lo, mid) + Row(n, mid, hi)
    decreases mid - lo
  {
    if lo < mid {
      RowSplit(n, lo + 1, mid, hi);
    }
  }

  lemma {:induction false} RowPascal(n: nat, lo: nat, hi: nat)
    requires 0 < lo && n > 0
    ensures Row(n, lo, hi) == Row(n - 1, lo, hi) + Row(n - 1, lo - 1, hi - 1)
    requires lo <= hi
    decreases hi - lo
  {
    if lo < hi {
      RowPascal(n, lo + 1, hi);
    }
  }

  lemma {:induction false} RowTotal(n: nat)
    ensures Row(n, 0, n + 1) == Pow2(n)
  {
    if n > 0 {
      RowTotal(n - 1);
      RowPascal(n, 1, n + 1);
      RowSplit(n - 1, 1, n, n + 1);
      CombBeyond(n - 1, n);
    }
  }

  lemma {:induction false} RowMirror(n: nat, lo: nat, hi: nat)
    requires lo <= hi <= n + 1
    ensures Row(n, lo, hi) == Row(n, n + 1 - hi, n + 1 - lo)
    decreases hi - lo
  {
    if lo < hi {
      RowMirror(n, lo + 1, hi);
      CombSymmetric(n, lo);
      RowSplit(n, n + 1 - hi, n - lo, n + 1 - lo);
    }
  }

  lemma {:induction false} RowPositive(n: nat, lo: nat, hi: nat)
    requires lo < hi && lo <= n
    ensures Row(n, lo, hi) >= 1
  {
    CombPositive(n, lo);
  }

  lemma {:induction false} RowGrows(n: nat, j: nat, k: nat)
    requires j <= k
    ensures Row(n, 0, j) <= Row(n, 0, k)
  {
    RowSplit(n, 0, j, k);
  }

  lemma RowEmpty(n: nat, k: nat)
    ensures Row(n, k, k) == 0
  {
  }

  /** Twice the lower tail against the whole row: the comparison that decides whether the cap acts. */
  lemma TwiceTail(b: nat, c: nat)
    requires b + c > 0
    ensures var tail, total := 2 * Row(b + c, 0, MinNat(b, c) + 1), Pow2(b + c);
            && (tail > total <==> b == c)
            && (tail == total <==> b == c + 1 || c == b + 1)
            && (tail < total <==> b > c + 1 || c > b + 1)
            && tail > 0
  {
    hide Row, Pow2;
    var n, k := b + c, MinNat(b, c);
    RowTotal(n);
    RowPositive(n, 0, k + 1);
    RowMirror(n, 0, k + 1);
    if b == c {
      RowSplit(n, 0, k + 1, n + 1);
      RowSplit(n, k, k + 1, n + 1);
      RowPositive(n, k, k + 1);
    } else {
      RowSplit(n, 0, k + 1, n + 1);
      RowSplit(n, k + 1, n - k, n + 1);
      if k + 1 < n - k {
        RowPositive(n, k + 1, n - k);
      } else {
        RowEmpty(n, k + 1);
      }
    }
  }

  lemma SignOfProduct(a: real, d: real)
    requires d > 0.0
    ensures a * d > 0.0 <==> a > 0.0
    ensures a * d == 0.0 <==> a == 0.0
  {
    if a < 0.0 {
      assert -a * d > 0.0;
    }
  }

  lemma RealQuotient(x: real, d: real)
    requires d > 0.0
    ensures x / d < 1.0 <==> x < d
    ensures x / d == 1.0 <==> x == d
    ensures x / d > 0.0 <==> x > 0.0
  {
    var q := x / d;
    assert q * d == x;
    assert (1.0 - q) * d == d - x;
    SignOfProduct(q, d);
    SignOfProduct(1.0 - q, d);
  }

  lemma Quotient(x: nat, y: nat)
    requires y > 0
    ensures x as real / y as real < 1.0 <==> x < y
    ensures x as real / y as real == 1.0 <==> x == y
    ensures x as real / y as real > 0.0 <==> x > 0
  {
    RealQuotient(x as real, y as real);
  }

  lemma QuotientGrows(x: nat, x': nat, y: nat)
    requires y > 0 && x <= x'
    ensures x as real / y as real <= x' as real / y as real
  {
    var q, q' := x as real / y as real, x' as real / y as real;
    assert q * y as real == x as real && q' * y as real == x' as real;
  }

  // ---------- What the test promises ----------

  /** The cap at one changes the value exactly when b == c; the uncapped tail is one exactly when the counts
      differ by one, and a proper fraction exactly when they differ by more. */
  lemma CapMatters(b: nat, c: nat)
    requires b + c > 0
    ensures Uncapped(b, c) > 1.0 <==> b == c
    ensures Uncapped(b, c) == 1.0 <==> b == c + 1 || c == b + 1
    ensures PExact(b, c) == Some(Uncapped(b, c)) <==> b != c
  {
    TwiceTail(b, c);
    Quotient(2 * Row(b + c, 0, MinNat(b, c) + 1), Pow2(b + c));
  }

  /** The p-value is a probability, it is missing only without discordant pairs, and it does not depend on which
      arm is called the first. */
  lemma PIsProbability(b: nat, c: nat)
    ensures PExact(b, c) == PExact(c, b)
    ensures PExact(b, c) == None <==> b == 0 && c == 0
    ensures PExact(b, c).Some? ==> 0.0 < PExact(b, c).value <= 1.0
    ensures PExact(b, c).Some? ==> (PExact(b, c).value == 1.0 <==> b <= c + 1 && c <= b + 1)
  {
    if b + c > 0 {
      TwiceTail(b, c);
      Quotient(2 * Row(b + c, 0, MinNat(b, c) + 1), Pow2(b + c));
    }
  }

  /** With the same number of discordant pairs, a more even split never looks more significant. */
  lemma PGrowsWithBalance(b: nat, c: nat, b': nat, c': nat)
    requires b + c == b' + c' > 0
    requires MinNat(b, c) <= MinNat(b', c')
    ensures PExact(b, c).value <= PExact(b', c').value
  {
    RowGrows(b + c, MinNat(b, c) + 1, MinNat(b', c') + 1);
    QuotientGrows(2 * Row(b + c, 0, MinNat(b, c) + 1), 2 * Row(b + c, 0, MinNat(b', c') + 1), Pow2(b + c));
  }

  // ---------- The p-value as a count of fair-coin outcomes ----------

  function Prepend(bit: bool, os: seq<seq<bool>>): seq<seq<bool>> {
    if os == [] then [] else [[bit] + os[0]] + Prepend(bit, os[1..])
  }

  /** Every way n discordant pairs can fall, each pair going to either arm. */
  function Outcomes(n: nat): seq<seq<bool>> {
    if n == 0 then [[]] else Prepend(true, Outcomes(n - 1)) + Prepend(false, Outcomes(n - 1))
  }

  function Trues(o: seq<bool>): nat {
    if o == [] then 0 else (if o[0] then 1 else 0) + Trues(o[1..])
  }

  /** An outcome with `i` of `n` pairs on one side is at least as lopsided as a difference of `d`. */
  predicate Extreme(i: nat, n: nat, d: nat) {
    2 * i - n >= d || n - 2 * i >= d
  }

  /** How many of the listed outcomes, with `shift` more on the first side, are that lopsided. */
  function CountExtreme(os: seq<seq<bool>>, shift: nat, n: nat, d: nat): nat {
    if os == [] then 0
    else (if Extreme(shift + Trues(os[0]), n, d) then 1 else 0) + CountExtreme(os[1..], shift, n, d)
  }

  function Tail(m: nat, shift: nat, n: nat, d: nat, lo: nat, hi: nat): nat
    decreases hi - lo
  {
    if lo >= hi then 0
    else (if Extreme(shift + lo, n, d) then Comb(m, lo) else 0) + Tail(m, shift, n, d, lo + 1, hi)
  }

  lemma {:induction false} CountConcat(os: seq<seq<bool>>, ps: seq<seq<bool>>, shift: nat, n: nat, d: nat)
    ensures CountExtreme(os + ps, shift, n, d) == CountExtreme(os, shift, n, d) + CountExtreme(ps, shift, n, d)
  {
    if os == [] {
      assert os + ps == ps;
    } else {
      assert (os + ps)[1..] == os[1..] + ps;
      CountConcat(os[1..], ps, shift, n, d);
    }
  }

  lemma {:induction false} CountPrepend(bit: bool, os: seq<seq<bool>>, shift: nat, n: nat, d: nat)
    ensures CountExtreme(Prepend(bit, os), shift, n, d)
            == CountExtreme(os, shift + (if bit then 1 else 0), n, d)
  {
    if os != [] {
      assert ([bit] + os[0])[1..] == os[0];
      assert Prepend(bit, os)[1..] == Prepend(bit, os[1..]);
      CountPrepend(bit, os[1..], shift, n, d);
    }
  }

  lemma {:induction false} TailPascal(m: nat, shift: nat, n: nat, d: nat, lo: nat, hi: nat)
    requires 0 < lo <= hi && m > 0
    ensures Tail(m, shift, n, d, lo, hi)
            == Tail(m - 1, shift, n, d, lo, hi) + Tail(m - 1, shift + 1, n, d, lo - 1, hi - 1)
    decreases hi - lo
  {
    if lo < hi {
      TailPascal(m, shift, n, d, lo + 1, hi);
    }
  }

  lemma {:induction false} TailLast(m: nat, shift: nat, n: nat, d: nat, lo: nat)
    requires lo <= m + 1
    ensures Tail(m, shift, n, d, lo, m + 2) == Tail(m, shift, n, d, lo, m + 1)
    decreases m + 1 - lo
  {
    if lo <= m {
      TailLast(m, shift, n, d, lo + 1);
    } else {
      CombBeyond(m, m + 1);
    }
  }

  lemma TailFirst(m: nat, shift: nat, n: nat, d: nat, hi: nat)
    requires hi > 0
    ensures Tail(m, shift, n, d, 0, hi)
            == (if Extreme(shift, n, d) then 1 else 0) + Tail(m, shift, n, d, 1, hi)
  {
  }

  lemma {:induction false} CountIsTail(m: nat, shift: nat, n: nat, d: nat)
    ensures CountExtreme(Outcomes(m), shift, n, d) == Tail(m, shift, n, d, 0, m + 1)
  {
    if m == 0 {
      assert Outcomes(0)[1..] == [];
    } else {
      hide CountExtreme, Tail, Comb, Extreme;
      TailFirst(m, shift, n, d, m + 1);
      CountConcat(Prepend(true, Outcomes(m - 1)), Prepend(false, Outcomes(m - 1)), shift, n, d);
      CountPrepend(true, Outcomes(m - 1), shift, n, d);
      CountPrepend(false, Outcomes(m - 1), shift, n, d);
      CountIsTail(m - 1, shift + 1, n, d);
      CountIsTail(m - 1, shift, n, d);
      TailFirst(m - 1, shift, n, d, m + 1);
      TailPascal(m, shift, n, d, 1, m + 1);
      TailLast(m - 1, shift, n, d, 0);
    }
  }

  lemma {:induction false} TailIsRow(n: nat, d: nat, lo: nat, hi: nat)
    requires forall i :: lo <= i < hi ==> Extreme(i, n, d)
    ensures Tail(n, 0, n, d, lo, hi) == Row(n, lo, hi)
    decreases hi - lo
  {
    if lo < hi {
      TailIsRow(n, d, lo + 1, hi);
    }
  }

  lemma {:induction false} TailIsZero(n: nat, d: nat, lo: nat, hi: nat)
    requires forall i :: lo <= i < hi ==> !Extreme(i, n, d)
    ensures Tail(n, 0, n, d, lo, hi) == 0
    decreases hi - lo
  {
    if lo < hi {
      TailIsZero(n, d, lo + 1, hi);
    }
  }

  lemma {:induction false} TailSplit(n: nat, d: nat, lo: nat, mid: nat, hi: nat)
    requires lo <= mid <= hi
    ensures Tail(n, 0, n, d, lo, hi) == Tail(n, 0, n, d, lo, mid) + Tail(n, 0, n, d, mid, hi)
    decreases mid - lo
  {
    if lo < mid {
      TailSplit(n, d, lo + 1, mid, hi);
    }
  }

  function Gap(b: nat, c: nat): nat {
    if b <= c then c - b else b - c
  }

  lemma ExtremeCount(b: nat, c: nat)
    ensures var n := b + c;
            CountExtreme(Outcomes(n), 0, n, Gap(b, c))
            == if b == c then Pow2(n) else 2 * Row(n, 0, MinNat(b, c) + 1)
  {
    hide CountExtreme, Outcomes, Tail, Row, Pow2;
    var n, k, d := b + c, MinNat(b, c), Gap(b, c);
    CountIsTail(n, 0, n, d);
    if b == c {
      TailIsRow(n, d, 0, n + 1);
      RowTotal(n);
    } else {
      TailSplit(n, d, 0, k + 1, n + 1);
      TailSplit(n, d, k + 1, n - k, n + 1);
      TailIsRow(n, d, 0, k + 1);
      TailIsZero(n, d, k + 1, n - k);
      TailIsRow(n, d, n - k, n + 1);
      RowMirror(n, 0, k + 1);
    }
  }

  lemma {:induction false} PrependLength(bit: bool, os: seq<seq<bool>>)
    ensures |Prepend(bit, os)| == |os|
  {
    if os != [] {
      PrependLength(bit, os[1..]);
    }
  }

  lemma {:induction false} OutcomesLength(n: nat)
    ensures |Outcomes(n)| == Pow2(n)
  {
    if n > 0 {
      OutcomesLength(n - 1);
      PrependLength(true, Outcomes(n - 1));
      PrependLength(false, Outcomes(n - 1));
    }
  }

  lemma {:induction false} PrependAt(bit: bool, os: seq<seq<bool>>, i: nat)
    requires i < |os|
    ensures |Prepend(bit, os)| == |os|
    ensures Prepend(bit, os)[i] == [bit] + os[i]
  {
    PrependLength(bit, os);
    if i > 0 {
      PrependAt(bit, os[1..], i - 1);
    }
  }

  /** The position of an outcome in the list. */
  function Rank(o: seq<bool>): nat {
    if o == [] then 0
    else if o[0] then Rank(o[1..]) else Pow2(|o| - 1) + Rank(o[1..])
  }

  /** `Outcomes` lists every way exactly once: the entry at i is the one way of rank i. */
  lemma {:induction false} OutcomesRanked(n: nat, i: nat)
    requires i < Pow2(n)
    ensures |Outcomes(n)| == Pow2(n)
    ensures |Outcomes(n)[i]| == n && Rank(Outcomes(n)[i]) == i
  {
    OutcomesLength(n);
    if n > 0 {
      var os := Outcomes(n - 1);
      OutcomesLength(n - 1);
      PrependLength(true, os);
      var bit, j := i < |os|, if i < |os| then i else i - |os|;
      OutcomesRanked(n - 1, j);
      PrependAt(bit, os, j);
      assert Outcomes(n)[i] == [bit] + os[j];
      assert ([bit] + os[j])[1..] == os[j];
    }
  }

  lemma {:induction false} EveryOutcomeListed(o: seq<bool>)
    ensures Rank(o) < Pow2(|o|) == |Outcomes(|o|)|
    ensures Outcomes(|o|)[Rank(o)] == o
  {
    OutcomesLength(|o|);
    if o != [] {
      var os := Outcomes(|o| - 1);
      EveryOutcomeListed(o[1..]);
      PrependLength(true, os);
      PrependAt(o[0], os, Rank(o[1..]));
      assert o == [o[0]] + o[1..];
    }
  }

  /** Every way the discordant pairs could fall is listed, and at one place only. */
  lemma EveryOutcomeOnce(o: seq<bool>)
    ensures |Outcomes(|o|)| == Pow2(|o|) && Rank(o) < Pow2(|o|)
    ensures forall i :: 0 <= i < Pow2(|o|) ==> (Outcomes(|o|)[i] == o <==> i == Rank(o))
  {
    EveryOutcomeListed(o);
    forall i | 0 <= i < Pow2(|o|) ensures Outcomes(|o|)[i] == o <==> i == Rank(o) {
      OutcomesRanked(|o|, i);
    }
  }

  /** The main identity: the capped p-value is the share of all ways the discordant pairs could fall that are at
      least as lopsided as what was observed. */
  lemma PIsShareOfOutcomes(b: nat, c: nat)
    requires b + c > 0
    ensures |Outcomes(b + c)| > 0
    ensures PExact(b, c) ==
            Some(CountExtreme(Outcomes(b + c), 0, b + c, Gap(b, c)) as real / |Outcomes(b + c)| as real)
  {
    hide CountExtreme, Outcomes, Row, Pow2;
    ExtremeCount(b, c);
    OutcomesLength(b + c);
    TwiceTail(b, c);
    Quotient(2 * Row(b + c, 0, MinNat(b, c) + 1), Pow2(b + c));
    Quotient(Pow2(b + c), Pow2(b + c));
  }
}
