/** Small vocabulary every module shares. */
module Prelude {
  /** A nullable database column, or an absent value. */
  datatype Option<+T> = None | Some(value: T)

  predicate Digit(c: char) { '0' <= c <= '9' }

  /** Decimal notation without leading zeros. */
  function Decimal(n: nat): (s: string)
    ensures s != [] && forall c | c in s :: Digit(c)
    ensures n > 0 ==> s[0] != '0'
  {
    var d := [(n % 10 + '0' as int) as char];
    if n < 10 then d else Decimal(n / 10) + d
  }

  /** The number written by a string of digits. */
  function Number(s: string): nat
    requires forall c | c in s :: Digit(c)
  {
    if s == [] then 0
    else
      assert Digit(s[|s| - 1]);
      10 * Number(s[..|s| - 1]) + (s[|s| - 1] as int - '0' as int)
  }

  lemma {:induction false} NumberDecimal(n: nat)
    ensures Number(Decimal(n)) == n
  {
    var s := Decimal(n);
    if n < 10 {
      assert s[..|s| - 1] == [];
    } else {
      NumberDecimal(n / 10);
      assert s[..|s| - 1] == Decimal(n / 10);
    }
  }

  /** ASCII lower case; other characters stay. */
  function LowerChar(c: char): (r: char)
    ensures r == c || 'a' <= r <= 'z'
  {
    if 'A' <= c <= 'Z' then (c as int + 32) as char else c
  }

  function Lower(s: string): (r: string)
    ensures |r| == |s| && forall i | 0 <= i < |s| :: r[i] == LowerChar(s[i])
  {
    seq(|s|, i requires 0 <= i < |s| => LowerChar(s[i]))
  }

  /** The part before the first `c`, or all of it. */
  function Before<T(==)>(s: seq<T>, c: T): (r: seq<T>)
    ensures |r| <= |s| && r == s[..|r|] && c !in r
    ensures |r| < |s| ==> s[|r|] == c
  {
    if s == [] || s[0] == c then [] else [s[0]] + Before(s[1..], c)
  }

  lemma {:induction false} BeforeFirst<T>(a: seq<T>, c: T, b: seq<T>)
    requires c !in a
    ensures Before(a + [c] + b, c) == a
  {
    if a == [] {
      assert (a + [c] + b)[0] == c;
    } else {
      assert (a + [c] + b)[1..] == a[1..] + [c] + b;
      BeforeFirst(a[1..], c, b);
    }
  }

  lemma {:induction false} BeforeNone<T>(a: seq<T>, c: T)
    requires c !in a
    ensures Before(a, c) == a
  {
    if a != [] { BeforeNone(a[1..], c); }
  }

  lemma SubsetSize(a: set<nat>, b: set<nat>)
    requires a <= b
    ensures |a| <= |b|
  {
    assert b == a + (b - a);
  }

  lemma FreshNat(used: set<nat>) returns (n: nat)
    ensures forall m | m in used :: m < n
    decreases |used|
  {
    if used == {} {
      n := 0;
    } else {
      var m :| m in used;
      var k := FreshNat(used - {m});
      n := if k > m then k else m + 1;
      assert forall x | x in used :: x == m || x in used - {m};
    }
  }
}
