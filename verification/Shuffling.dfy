/** The Fisher-Yates shuffle in place, with the random indices as a parameter: which orders it draws, and how. */
module Shuffling {
  // One random index for each position, none past it.
  predicate ValidDraws(draws: seq<nat>, n: nat) { |draws| == n && forall i | 0 <= i < n :: draws[i] <= i }

  function Swap<T>(s: seq<T>, i: nat, j: nat): seq<T>
    requires i < |s| && j < |s|
  {
    s[i := s[j]][j := s[i]]
  }

  // From the last of the first n positions down, each is swapped with the one drawn for it.
  function FisherYates<T>(s: seq<T>, draws: seq<nat>, n: nat): (r: seq<T>)
    requires n <= |s| && n <= |draws| && forall i | 0 <= i < n :: draws[i] <= i
    ensures |r| == |s|
    decreases n
  {
    if n <= 1 then s else FisherYates(Swap(s, n - 1, draws[n - 1]), draws, n - 1)
  }

  /** The shuffle in place, for whatever indices are drawn. */
  method Shuffle<T>(a: array<T>, draws: seq<nat>)
    requires ValidDraws(draws, a.Length)
    modifies a
    ensures a[..] == FisherYates(old(a[..]), draws, a.Length)
    ensures multiset(a[..]) == multiset(old(a[..]))
  {
    var i := a.Length - 1;
    while i > 0
      invariant i <= a.Length - 1 && (i < 0 ==> a.Length == 0)
      invariant if i < 0 then a[..] == old(a[..]) else FisherYates(a[..], draws, i + 1) == FisherYates(old(a[..]), draws, a.Length)
    {
      var j := draws[i];
      ghost var before := a[..];
      a[i], a[j] := a[j], a[i];
      assert a[..] == Swap(before, i, j);
      i := i - 1;
    }
    FisherYatesPermutes(old(a[..]), draws, a.Length);
  }

  method Draw(n: nat) returns (draws: seq<nat>)
    ensures ValidDraws(draws, n)
  {
    draws := [];
    for i := 0 to n
      invariant ValidDraws(draws, i)
    {
      var j: nat :| 0 <= j <= i;
      draws := draws + [j];
    }
  }

  method Shuffled<T>(s: seq<T>) returns (r: seq<T>)
    ensures multiset(r) == multiset(s)
  {
    var a := new T[|s|](i requires 0 <= i < |s| => s[i]);
    assert a[..] == s;
    var draws := Draw(|s|);
    Shuffle(a, draws);
    r := a[..];
  }

  lemma SwapPermutes<T>(s: seq<T>, i: nat, j: nat, n: nat)
    requires i < n <= |s| && j < n
    ensures multiset(Swap(s, i, j)[..n]) == multiset(s[..n]) && Swap(s, i, j)[n..] == s[n..]
  {
    assert Swap(s, i, j)[..n] == s[..n][i := s[j]][j := s[i]];
  }

  lemma {:induction false} FisherYatesPermutes<T>(s: seq<T>, draws: seq<nat>, n: nat)
    requires n <= |s| && n <= |draws| && forall i | 0 <= i < n :: draws[i] <= i
    ensures multiset(FisherYates(s, draws, n)) == multiset(s)
    ensures forall k | n <= k < |s| :: FisherYates(s, draws, n)[k] == s[k]
    decreases n
  {
    if n > 1 {
      SwapPermutes(s, n - 1, draws[n - 1], |s|);
      assert Swap(s, n - 1, draws[n - 1])[..|s|] == Swap(s, n - 1, draws[n - 1]) && s[..|s|] == s;
      FisherYatesPermutes(Swap(s, n - 1, draws[n - 1]), draws, n - 1);
    }
  }

  lemma {:induction false} EarlierDrawsMatter<T>(s: seq<T>, d: seq<nat>, e: seq<nat>, n: nat)
    requires n <= |s| && n <= |d| && n <= |e| && (forall i | 0 <= i < n :: d[i] <= i && d[i] == e[i])
    ensures FisherYates(s, d, n) == FisherYates(s, e, n)
    decreases n
  {
    if n > 1 { EarlierDrawsMatter(Swap(s, n - 1, d[n - 1]), d, e, n - 1); }
  }

  lemma WithoutLast<T>(x: seq<T>, y: seq<T>)
    requires x != [] && y != [] && x[|x| - 1] == y[|y| - 1] && multiset(x) == multiset(y)
    ensures multiset(x[..|x| - 1]) == multiset(y[..|y| - 1])
  {
    var e := x[|x| - 1];
    assert x == x[..|x| - 1] + [e] && y == y[..|y| - 1] + [e];
    assert multiset(x[..|x| - 1]) == multiset(x) - multiset{e} && multiset(y[..|y| - 1]) == multiset(y) - multiset{e};
  }

  lemma OneMoreSame<T>(s: seq<T>, p: seq<T>, n: nat)
    requires |s| == |p| && 0 < n <= |s| && s[n..] == p[n..] && s[n - 1] == p[n - 1]
    ensures s[n - 1..] == p[n - 1..]
  {
    assert s[n - 1..] == [s[n - 1]] + s[n..] && p[n - 1..] == [p[n - 1]] + p[n..];
  }

  // Swapping the wanted element into the last open place leaves the same task one place shorter.
  lemma OnePlaced<T>(s: seq<T>, p: seq<T>, n: nat, j: nat)
    requires |s| == |p| && j < n <= |s| && s[n..] == p[n..] && multiset(s[..n]) == multiset(p[..n]) && s[j] == p[n - 1]
    ensures var t := Swap(s, n - 1, j); t[n - 1..] == p[n - 1..] && multiset(t[..n - 1]) == multiset(p[..n - 1])
  {
    var t := Swap(s, n - 1, j);
    SwapPermutes(s, n - 1, j, n);
    OneMoreSame(t, p, n);
    assert t[..n][..n - 1] == t[..n - 1] && p[..n][..n - 1] == p[..n - 1];
    WithoutLast(t[..n], p[..n]);
  }

  lemma FindPlace<T>(s: seq<T>, p: seq<T>, n: nat) returns (j: nat)
    requires 0 < n <= |s| && n <= |p| && multiset(s[..n]) == multiset(p[..n])
    ensures j < n && s[j] == p[n - 1]
  {
    assert p[..n][n - 1] in multiset(p[..n]);
    assert p[n - 1] in multiset(s[..n]);
    j :| j < n && s[..n][j] == p[n - 1];
  }

  lemma {:induction false} OrderIsDrawn<T>(s: seq<T>, p: seq<T>, n: nat) returns (draws: seq<nat>)
    requires |s| == |p| && n <= |s| && s[n..] == p[n..] && multiset(s[..n]) == multiset(p[..n])
    ensures ValidDraws(draws, n) && FisherYates(s, draws, n) == p
    decreases n
  {
    if n == 0 {
      draws := [];
      assert s == s[0..] && p == p[0..];
    } else {
      var j := FindPlace(s, p, n);
      var t := Swap(s, n - 1, j);
      OnePlaced(s, p, n, j);
      var earlier := OrderIsDrawn(t, p, n - 1);
      draws := earlier + [j];
      EarlierDrawsMatter(t, earlier, draws, n - 1);
      if n == 1 { assert t == s; }
    }
  }

  /** Every order comes out of some draw of indices. */
  lemma EveryOrderIsDrawn<T>(s: seq<T>, p: seq<T>)
    requires multiset(s) == multiset(p)
    ensures exists draws :: ValidDraws(draws, |s|) && FisherYates(s, draws, |s|) == p
  {
    assert |s| == |multiset(s)| == |multiset(p)| == |p|;
    assert s[..|s|] == s && p[..|s|] == p;
    var draws := OrderIsDrawn(s, p, |s|);
  }

  lemma SwapKeepsApart<T>(s: seq<T>, i: nat, j: nat)
    requires i < |s| && j < |s| && forall k, l | 0 <= k < l < |s| :: s[k] != s[l]
    ensures forall k, l | 0 <= k < l < |s| :: Swap(s, i, j)[k] != Swap(s, i, j)[l]
  {
  }

  /** And of only one, so with each index drawn evenly no order is likelier than another; position 0 has no choice. */
  lemma {:induction false} OrdersAreDrawnOnce<T>(s: seq<T>, d: seq<nat>, e: seq<nat>, n: nat)
    requires n <= |s| && n <= |d| && n <= |e| && (forall i | 0 <= i < n :: d[i] <= i && e[i] <= i)
    requires (forall i, j | 0 <= i < j < |s| :: s[i] != s[j]) && FisherYates(s, d, n) == FisherYates(s, e, n)
    ensures forall i | 0 <= i < n :: d[i] == e[i]
    decreases n
  {
    if n > 1 {
      var a, b := Swap(s, n - 1, d[n - 1]), Swap(s, n - 1, e[n - 1]);
      FisherYatesPermutes(a, d, n - 1);
      FisherYatesPermutes(b, e, n - 1);
      assert a[n - 1] == FisherYates(a, d, n - 1)[n - 1] == FisherYates(b, e, n - 1)[n - 1] == b[n - 1];
      assert a[n - 1] == s[d[n - 1]] && b[n - 1] == s[e[n - 1]];
      SwapKeepsApart(s, n - 1, d[n - 1]);
      OrdersAreDrawnOnce(a, d, e, n - 1);
    }
  }
}
