/** Small shared vocabulary: optional values (Java's null), the Java exceptions the
    core raises, and the list operations of java.util.List that the core relies on. */
module Common {

  datatype Option<T> = None | Some(value: T)

  /** The exceptions thrown by the modelled code, by Java class. */
  datatype JavaException =
    | IllegalArgument(message: string)
    | IllegalState(message: string)
    | NullPointer
    | IndexOutOfBounds
    | NumberFormat
    | NoSuchElement
    | Arithmetic
    | UsernameNotFound(message: string)

  /** A Java call that either returns a value or throws. */
  datatype Result<T> = Ok(value: T) | Throw(exception: JavaException)

  /** Index of the first element equal to x (List.indexOf). */
  function FirstIndex<T(==)>(s: seq<T>, x: T): (i: nat)
    requires x in s
    ensures i < |s| && s[i] == x && x !in s[..i]
  {
    if s[0] == x then 0 else
      assert s == [s[0]] + s[1..];
      1 + FirstIndex(s[1..], x)
  }

  /** List.remove(Object): drops the first element equal to x, if any. */
  function RemoveFirst<T(==)>(s: seq<T>, x: T): (r: seq<T>)
  {
    if x in s then s[..FirstIndex(s, x)] + s[FirstIndex(s, x) + 1..] else s
  }

  lemma RemoveFirstSpec<T>(s: seq<T>, x: T)
    ensures x !in s ==> RemoveFirst(s, x) == s
    ensures x in s ==> |RemoveFirst(s, x)| == |s| - 1
    ensures multiset(RemoveFirst(s, x)) == multiset(s) - multiset{x}
  {
    if x in s {
      var i := FirstIndex(s, x);
      assert s == s[..i] + [x] + s[i + 1..];
      calc {
        multiset(s);
        multiset(s[..i]) + multiset{x} + multiset(s[i + 1..]);
      }
    }
  }

  /** List.remove(int): drops the element at index i. */
  function RemoveAt<T>(s: seq<T>, i: nat): (r: seq<T>)
    requires i < |s|
    ensures |r| == |s| - 1
    ensures forall k :: 0 <= k < i ==> r[k] == s[k]
    ensures forall k :: i <= k < |r| ==> r[k] == s[k + 1]
  {
    s[..i] + s[i + 1..]
  }

  /** Stream.filter(p).collect(toList()): the elements satisfying p, in order, each
      as often as in s. */
  function Keep<T(!new)>(s: seq<T>, p: T -> bool): (r: seq<T>)
    ensures |r| <= |s|
    ensures forall x :: x in r <==> x in s && p(x)
    ensures multiset(r) <= multiset(s)
    ensures forall x :: p(x) ==> multiset(r)[x] == multiset(s)[x]
  {
    if s == [] then []
    else
      assert s == [s[0]] + s[1..];
      (if p(s[0]) then [s[0]] else []) + Keep(s[1..], p)
  }

  /** Sum of a sequence of integers. */
  function Sum(s: seq<int>): int
  {
    if s == [] then 0 else s[0] + Sum(s[1..])
  }

  /** Java's int division, which truncates toward zero. */
  function JavaDiv(a: int, b: int): (q: int)
    requires b > 0
    ensures a >= 0 ==> 0 <= q * b <= a < q * b + b
    ensures a < 0 ==> q * b - b < a <= q * b <= 0
  {
    if a >= 0 then
      DivBounds(a, b);
      a / b
    else
      DivBounds(-a, b);
      NegTimes(( -a) / b, b);
      -((-a) / b)
  }

  /** Euclidean division of a natural number: the quotient times the divisor is at most
      the dividend and the remainder is below the divisor. */
  lemma DivBounds(n: nat, b: int)
    requires b > 0
    ensures n / b >= 0 && 0 <= (n / b) * b <= n < (n / b) * b + b
    ensures n % b == n - (n / b) * b
  {
    var q := n / b;
    var r := n % b;
    assert n == q * b + r;
    assert 0 <= r < b;
    assert q * b >= 0 by { MulMono(q, 0, b); }
  }

  lemma MulMono(x: int, y: int, b: int)
    requires b > 0 && x >= y
    ensures x * b >= y * b
  {
    assert x * b - y * b == (x - y) * b;
  }

  lemma NegTimes(q: int, b: int)
    ensures (-q) * b == -(q * b)
  {
  }

  /** Java's int remainder, which takes the sign of the dividend. */
  function JavaRem(a: int, b: int): (r: int)
    requires b > 0
    ensures a >= 0 ==> 0 <= r < b && (a - r) % b == 0
    ensures a < 0 ==> -b < r <= 0 && (a - r) % b == 0
  {
    if a >= 0 then
      DivBounds(a, b);
      ModMultiple(a / b, b);
      a % b
    else
      DivBounds(-a, b);
      ModMultiple(-((-a) / b), b);
      NegTimes((-a) / b, b);
      -((-a) % b)
  }

  /** A multiple of the divisor leaves no remainder. */
  lemma ModMultiple(q: int, b: int)
    requires b > 0
    ensures (q * b) % b == 0
  {
    var x := q * b;
    var d := x / b;
    var r := x % b;
    assert x == d * b + r;
    assert r == (q - d) * b;
    if q - d >= 1 {
      MulMono(q - d, 1, b);
    } else if q - d <= -1 {
      MulMono(-1, q - d, b);
    }
  }

  function Max(a: int, b: int): int { if a >= b then a else b }
  function Min(a: int, b: int): int { if a <= b then a else b }

  /** A switch on a string with count cases, from case i on: the value of the first
      case whose label is the name, None for the default. */
  function CaseFrom(cases: nat -> (string, string), count: nat, name: string, i: nat): (r: Option<string>)
    decreases count - i
  {
    if i >= count then None
    else if cases(i).0 == name then Some(cases(i).1)
    else CaseFrom(cases, count, name, i + 1)
  }

  /** The switch picks the first case whose label is the name, and falls to the
      default exactly when no label is. */
  lemma {:induction false} CaseFromFirstMatch(cases: nat -> (string, string), count: nat, name: string, i: nat)
    ensures CaseFrom(cases, count, name, i).None? <==> forall j :: i <= j < count ==> cases(j).0 != name
    ensures CaseFrom(cases, count, name, i).Some? ==>
      exists j :: i <= j < count && cases(j) == (name, CaseFrom(cases, count, name, i).value)
        && forall l :: i <= l < j ==> cases(l).0 != name
    decreases count - i
  {
    if i < count && cases(i).0 != name {
      CaseFromFirstMatch(cases, count, name, i + 1);
    }
  }
}
