/** Folds over sequences: a sum of reals, a sum of naturals and a count, with the laws for appending a record
    and for overwriting one record in place. */
module Folds {

  ghost function Sum<T>(f: T -> real, s: seq<T>): (total: real) {
    if |s| == 0 then 0.0 else Sum(f, s[..|s| - 1]) + f(s[|s| - 1])
  }

  lemma SumAppend<T>(f: T -> real, s: seq<T>, x: T)
    ensures Sum(f, s + [x]) == Sum(f, s) + f(x)
  {
    assert (s + [x])[..|s|] == s;
  }

  lemma {:induction false} SumUpdate<T>(f: T -> real, s: seq<T>, i: nat, x: T)
    requires i < |s|
    ensures Sum(f, s[i := x]) == Sum(f, s) - f(s[i]) + f(x)
  {
    var n := |s| - 1;
    if i == n {
      assert s[i := x][..n] == s[..n];
    } else {
      assert s[i := x][..n] == s[..n][i := x];
      SumUpdate(f, s[..n], i, x);
    }
  }

  lemma {:induction false} SumConcat<T>(f: T -> real, s: seq<T>, t: seq<T>)
    ensures Sum(f, s + t) == Sum(f, s) + Sum(f, t)
  {
    if |t| == 0 {
      assert s + t == s;
    } else {
      var n := |t| - 1;
      assert (s + t)[..|s + t| - 1] == s + t[..n];
      SumConcat(f, s, t[..n]);
    }
  }

  lemma {:induction false} SumZero<T>(f: T -> real, s: seq<T>)
    requires forall i :: 0 <= i < |s| ==> f(s[i]) == 0.0
    ensures Sum(f, s) == 0.0
  {
    if |s| > 0 {
      SumZero(f, s[..|s| - 1]);
    }
  }

  lemma {:induction false} SumNonNegative<T>(f: T -> real, s: seq<T>)
    requires forall i :: 0 <= i < |s| ==> f(s[i]) >= 0.0
    ensures Sum(f, s) >= 0.0
  {
    if |s| > 0 {
      SumNonNegative(f, s[..|s| - 1]);
    }
  }

  ghost function Total<T>(f: T -> nat, s: seq<T>): (n: nat) {
    if |s| == 0 then 0 else Total(f, s[..|s| - 1]) + f(s[|s| - 1])
  }

  lemma {:induction false} TotalUpdate<T>(f: T -> nat, s: seq<T>, i: nat, x: T)
    requires i < |s|
    ensures Total(f, s[i := x]) + f(s[i]) == Total(f, s) + f(x)
  {
    var n := |s| - 1;
    if i == n {
      assert s[i := x][..n] == s[..n];
    } else {
      assert s[i := x][..n] == s[..n][i := x];
      TotalUpdate(f, s[..n], i, x);
    }
  }

  lemma TotalAppend<T>(f: T -> nat, s: seq<T>, x: T)
    ensures Total(f, s + [x]) == Total(f, s) + f(x)
  {
    assert (s + [x])[..|s|] == s;
  }

  lemma {:induction false} TotalSame<T>(f: T -> nat, g: T -> nat, s: seq<T>)
    requires forall i :: 0 <= i < |s| ==> f(s[i]) == g(s[i])
    ensures Total(f, s) == Total(g, s)
  {
    if |s| > 0 {
      TotalSame(f, g, s[..|s| - 1]);
    }
  }

  ghost function Count<T>(p: T -> bool, s: seq<T>): (n: nat) {
    if |s| == 0 then 0 else Count(p, s[..|s| - 1]) + One(p(s[|s| - 1]))
  }

  function One(b: bool): nat { if b then 1 else 0 }

  lemma CountAppend<T>(p: T -> bool, s: seq<T>, x: T)
    ensures Count(p, s + [x]) == Count(p, s) + One(p(x))
  {
    assert (s + [x])[..|s|] == s;
  }

  lemma {:induction false} CountUpdate<T>(p: T -> bool, s: seq<T>, i: nat, x: T)
    requires i < |s|
    ensures Count(p, s[i := x]) + One(p(s[i])) == Count(p, s) + One(p(x))
  {
    var n := |s| - 1;
    if i == n {
      assert s[i := x][..n] == s[..n];
    } else {
      assert s[i := x][..n] == s[..n][i := x];
      CountUpdate(p, s[..n], i, x);
    }
  }

  lemma {:induction false} CountConcat<T>(p: T -> bool, s: seq<T>, t: seq<T>)
    ensures Count(p, s + t) == Count(p, s) + Count(p, t)
  {
    if |t| == 0 {
      assert s + t == s;
    } else {
      var n := |t| - 1;
      assert (s + t)[..|s + t| - 1] == s + t[..n];
      CountConcat(p, s, t[..n]);
    }
  }

  lemma {:induction false} CountZero<T>(p: T -> bool, s: seq<T>)
    ensures Count(p, s) == 0 <==> forall i :: 0 <= i < |s| ==> !p(s[i])
  {
    if |s| > 0 {
      CountZero(p, s[..|s| - 1]);
    }
  }

  lemma {:induction false} CountSame<T>(p: T -> bool, q: T -> bool, s: seq<T>)
    requires forall i :: 0 <= i < |s| ==> p(s[i]) == q(s[i])
    ensures Count(p, s) == Count(q, s)
  {
    if |s| > 0 {
      CountSame(p, q, s[..|s| - 1]);
    }
  }

  lemma {:induction false} CountAtMostOne<T>(p: T -> bool, s: seq<T>)
    requires forall i, j :: 0 <= i < j < |s| ==> !(p(s[i]) && p(s[j]))
    ensures Count(p, s) <= 1
  {
    if |s| > 0 {
      var front := s[..|s| - 1];
      if p(s[|s| - 1]) {
        CountZero(p, front);
      } else {
        CountAtMostOne(p, front);
      }
    }
  }
}
