/** Strict total orders and the sorted, duplicate-free sequences that pandas
    produces when it sorts an index or a set of column labels. */
module Order {

  ghost predicate IsStrictTotalOrder<T(!new)>(lt: (T, T) -> bool)
  {
    && (forall a :: !lt(a, a))
    && (forall a, b, c :: lt(a, b) && lt(b, c) ==> lt(a, c))
    && (forall a, b :: a != b ==> lt(a, b) || lt(b, a))
  }

  /** Every element is below every later one; this also makes the elements distinct. */
  predicate Increasing<T>(lt: (T, T) -> bool, s: seq<T>)
  {
    forall i, j :: 0 <= i < j < |s| ==> lt(s[i], s[j])
  }

  /** Places x into a sorted sequence, unless it is already there. */
  function Insert<T(==,!new)>(lt: (T, T) -> bool, x: T, s: seq<T>): (r: seq<T>)
    requires IsStrictTotalOrder(lt) && Increasing(lt, s)
    ensures Increasing(lt, r)
    ensures forall y :: y in r <==> y == x || y in s
  {
    if s == [] then [x]
    else if x == s[0] then s
    else if lt(x, s[0]) then [x] + s
    else
      var rest := Insert(lt, x, s[1..]);
      assert forall y :: y in rest ==> lt(s[0], y);
      [s[0]] + rest
  }

  /** The distinct elements of xs in ascending order (pandas' sorted unique labels). */
  function SortedDistinct<T(==,!new)>(lt: (T, T) -> bool, xs: seq<T>): (r: seq<T>)
    requires IsStrictTotalOrder(lt)
    ensures Increasing(lt, r)
    ensures forall y :: y in r <==> y in xs
  {
    if xs == [] then []
    else Insert(lt, xs[|xs| - 1], SortedDistinct(lt, xs[..|xs| - 1]))
  }

  /** Python's comparison of two strings: code point by code point, a proper prefix first. */
  predicate SymbolLess(a: string, b: string)
  {
    if |a| == 0 then |b| > 0
    else if |b| == 0 then false
    else a[0] < b[0] || (a[0] == b[0] && SymbolLess(a[1..], b[1..]))
  }

  lemma {:induction false} SymbolLessIrreflexive(a: string)
    ensures !SymbolLess(a, a)
  {
    if |a| > 0 { SymbolLessIrreflexive(a[1..]); }
  }

  lemma {:induction false} SymbolLessTransitive(a: string, b: string, c: string)
    requires SymbolLess(a, b) && SymbolLess(b, c)
    ensures SymbolLess(a, c)
  {
    if |a| > 0 && |b| > 0 && |c| > 0 && a[0] == b[0] == c[0] {
      SymbolLessTransitive(a[1..], b[1..], c[1..]);
    }
  }

  lemma {:induction false} SymbolLessTotal(a: string, b: string)
    requires a != b
    ensures SymbolLess(a, b) || SymbolLess(b, a)
  {
    if |a| > 0 && |b| > 0 && a[0] == b[0] {
      assert a == [a[0]] + a[1..] && b == [b[0]] + b[1..];
      SymbolLessTotal(a[1..], b[1..]);
    }
  }

  lemma SymbolLessIsOrder()
    ensures IsStrictTotalOrder(SymbolLess)
  {
    forall a ensures !SymbolLess(a, a) { SymbolLessIrreflexive(a); }
    forall a, b, c | SymbolLess(a, b) && SymbolLess(b, c) ensures SymbolLess(a, c) {
      SymbolLessTransitive(a, b, c);
    }
    forall a, b | a != b ensures SymbolLess(a, b) || SymbolLess(b, a) { SymbolLessTotal(a, b); }
  }
}
