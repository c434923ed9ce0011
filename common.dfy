/** Small helpers shared by the refresh model: optional values, results and the
    `Math.ceil(a / b)` arithmetic that the workers and the paging code use. */
module Common {

  datatype Option<+T> = None | Some(value: T)

  datatype Result<+T, +E> = Ok(value: T) | Err(error: E)

  /** Instants (`new Date(...)`, parsed dates) are opaque, ordered timestamps. */
  type Time = int

  /** `Math.ceil(a / b)` for a non-negative numerator and a positive divisor:
      the least number of blocks of size `b` that hold `a` items. */
  function CeilDiv(a: nat, b: nat): (r: nat)
    requires b > 0
    ensures a <= r * b
    ensures (r - 1) * b < a
  {
    var q := (a + b - 1) / b;
    DivBounds(a + b - 1, b);
    q
  }

  /** Euclidean division brackets its numerator. */
  lemma DivBounds(x: nat, b: nat)
    requires b > 0
    ensures (x / b) * b <= x < (x / b) * b + b
  {
  }

  lemma {:induction false} MulAtLeast(k: nat, m: nat)
    requires k >= 1
    ensures k * m >= m
  {
    if k > 1 {
      MulAtLeast(k - 1, m);
      assert k * m == (k - 1) * m + m;
    }
  }

  lemma MulMono(a: int, b: int, m: nat)
    requires m > 0 && a < b
    ensures a * m + m <= b * m
  {
    MulAtLeast(b - a, m);
    assert b * m == a * m + (b - a) * m;
  }

  /** Quotient and remainder are determined by any decomposition `a == q * m + r`
      with `0 <= r < m`. */
  lemma ModUnique(a: int, m: int, q: int, r: int)
    requires m > 0 && 0 <= r < m && a == q * m + r
    ensures a / m == q && a % m == r
  {
    var d := a / m;
    if d < q { MulMono(d, q, m); }
    else if d > q { MulMono(q, d, m); }
  }

  /** ASCII upper-casing of one character, as `String.prototype.toUpperCase`
      does for the letters `a`..`z`. */
  function UpperChar(c: char): (r: char)
    ensures 'a' <= c <= 'z' ==> r as int == c as int - 32
    ensures !('a' <= c <= 'z') ==> r == c
    ensures !('a' <= r <= 'z')
  {
    if 'a' <= c <= 'z' then (c as int - 32) as char else c
  }

  /** Upper-cases every character of a string. */
  function Upper(s: string): (r: string)
    ensures |r| == |s|
    ensures forall i :: 0 <= i < |s| ==> r[i] == UpperChar(s[i])
  {
    if s == [] then [] else [UpperChar(s[0])] + Upper(s[1..])
  }

  /** Upper-casing is idempotent: an upper-cased key stays the same key. */
  lemma UpperIdempotent(s: string)
    ensures Upper(Upper(s)) == Upper(s)
  {
    var u := Upper(s);
    assert forall i :: 0 <= i < |u| ==> UpperChar(u[i]) == u[i];
  }
}
