/** The "Minimal Standard" pseudo-random generator of xf86drmRandom.c: Schrage's
    division-free-of-overflow step, proved equal to multiplication modulo a prime on
    any unsigned word of at least 32 bits, and the exact period of the sequence. */
module LehmerRandom {
  import opened Arithmetic

  const A: nat := 48271
  const M: nat := 2147483647
  const Q: nat := M / A
  const R: nat := M % A

  /** The state that `drmRandomCreate` allocates; `word` is the modulus of the
      platform's `unsigned long`, in which every intermediate value wraps. */
  class RandomState {
    const word: nat
    var seed: nat

    ghost predicate Valid()
      reads this
    {
      0x1_0000_0000 <= word && 1 <= seed < M
    }

    constructor (wordModulus: nat, initial: nat)
      requires 0x1_0000_0000 <= wordModulus
      requires initial < wordModulus
      ensures Valid() && word == wordModulus
      ensures 1 <= initial < M ==> seed == initial
      ensures initial == 0 ==> seed == 1
      ensures initial >= M ==> seed == M - 1
    {
      word := wordModulus;
      var s := initial;
      if s <= 0 { s := 1; }
      if s >= M { s := M - 1; }
      seed := s;
    }

    /** `drmRandom`, with unsigned wrap-around at every operation. */
    method Random() returns (r: nat)
      requires Valid()
      modifies this`seed
      ensures Valid()
      ensures r == seed == Next(old(seed))
    {
      var hi := seed / Q;
      var lo := seed % Q;
      SchrageBounds(seed);
      WrappedStep(word, A * lo, R * hi);
      var s := (A * lo % word - R * hi % word) % word;
      if A * lo % word <= R * hi % word {
        s := (s + M) % word;
      }
      SchrageExact(seed);
      NextInRange(seed);
      seed := s;
      r := s;
    }
  }

  /** What the generator is meant to compute. */
  function Next(seed: nat): (r: nat) {
    A * seed % M
  }

  /** The value after `n` calls. */
  function Iterate(n: nat, seed: nat): nat {
    if n == 0 then seed else Next(Iterate(n - 1, seed))
  }

  function Pow(b: nat, e: nat): nat {
    if e == 0 then 1 else b * Pow(b, e - 1)
  }

  // ----- arithmetic modulo M

  lemma ModIs(t: int, q: int, r: int)
    requires t == q * M + r && 0 <= r < M
    ensures t % M == r
  {
  }

  lemma ModMul(u: nat, v: nat)
    ensures u * v % M == (u % M) * (v % M) % M
  {
    var i, j, x, y := u / M, v / M, u % M, v % M;
    assert u == M * i + x && v == M * j + y;
    var k := i * v + x * j;
    assert u * v == k * M + x * y by {
      calc {
        u * v;
        (M * i + x) * v;
        M * i * v + x * v;
        M * i * v + x * (M * j + y);
        M * i * v + x * M * j + x * y;
        { assert M * i * v == i * v * M; assert x * M * j == x * j * M; }
        i * v * M + x * j * M + x * y;
        k * M + x * y;
      }
    }
    var p, z := x * y / M, x * y % M;
    assert x * y == p * M + z;
    assert u * v == (k + p) * M + z;
    ModIs(u * v, k + p, z);
  }

  // ----- Schrage's step

  lemma SchrageBounds(seed: nat)
    requires 1 <= seed < M
    ensures var hi, lo := seed / Q, seed % Q;
            A * lo < 0x1_0000_0000 && R * hi < 0x1_0000_0000 && A * lo - R * hi < M && 0 < A * lo - R * hi + M
  {
    var hi, lo := seed / Q, seed % Q;
    assert Q == 44488 && R == 3399;
    assert hi <= 48271 && lo < 44488;
  }

  /** Unsigned wrap-around in the subtraction and in the correction cancel out. */
  lemma WrappedStep(word: nat, x: nat, y: nat)
    requires 0x1_0000_0000 <= word && x < 0x1_0000_0000 && y < 0x1_0000_0000
    requires x - y < M && 0 < x - y + M
    ensures x % word == x && y % word == y
    ensures x > y ==> (x - y) % word == x - y
    ensures x <= y ==> ((x - y) % word + M) % word == x - y + M
  {
    DivModUnique(x, 0, x, word);
    DivModUnique(y, 0, y, word);
    if x > y {
      DivModUnique(x - y, 0, x - y, word);
    } else {
      WrappedBorrow(word, y - x);
    }
  }

  lemma WrappedBorrow(word: nat, b: int)
    requires 0x1_0000_0000 <= word && 0 <= b < M
    ensures ((-b) % word + M) % word == M - b
  {
    if b == 0 {
      DivModUnique(0, 0, 0, word);
      DivModUnique(M, 0, M, word);
    } else {
      DivModUnique(-b, -1, word - b, word);
      DivModUnique(word - b + M, 1, M - b, word);
    }
  }

  /** The signed difference that Schrage's decomposition forms is the product modulo M,
      up to one addition of M. */
  lemma SchrageExact(seed: nat)
    requires 1 <= seed < M
    ensures var d := A * (seed % Q) - R * (seed / Q);
            Next(seed) == if d <= 0 then d + M else d
  {
    var hi, lo := seed / Q, seed % Q;
    assert Q == 44488 && R == 3399;
    assert seed == Q * hi + lo;
    var d := A * lo - R * hi;
    SchrageBounds(seed);
    assert A * seed == hi * M + d by {
      assert A * Q + R == M;
      assert A * seed == A * Q * hi + A * lo;
    }
    if d > 0 {
      ModIs(A * seed, hi, d);
    } else if d < 0 {
      assert A * seed == (hi - 1) * M + (d + M);
      ModIs(A * seed, hi - 1, d + M);
    } else {
      // d == 0 would make M divide A * seed
      ModIs(A * seed, hi, 0);
      NextInRange(seed);
    }
  }

  // A * INVERSE == 1 modulo M
  const INVERSE: nat := 1899818559
  const INVERSE_QUOTIENT: nat := 42704

  lemma Cancel(u: int)
    requires A * u % M == 0
    ensures u % M == 0
  {
    var t := A * u / M;
    assert A * u == M * t;
    assert A * INVERSE == INVERSE_QUOTIENT * M + 1;
    assert u == (INVERSE * t - INVERSE_QUOTIENT * u) * M + 0 by {
      assert INVERSE * (A * u) == INVERSE * (M * t);
      assert INVERSE * (A * u) == (INVERSE_QUOTIENT * M + 1) * u;
    }
    ModIs(u, INVERSE * t - INVERSE_QUOTIENT * u, 0);
  }

  lemma NextInRange(seed: nat)
    requires 1 <= seed < M
    ensures 1 <= Next(seed) < M
  {
    if A * seed % M == 0 {
      Cancel(seed);
      assert false;
    }
  }

  lemma NextInjective(s: nat, t: nat)
    requires 1 <= s < M && 1 <= t < M && Next(s) == Next(t)
    ensures s == t
  {
    var i, j := A * s / M, A * t / M;
    assert A * (s - t) == (i - j) * M + 0;
    ModIs(A * (s - t), i - j, 0);
    Cancel(s - t);
    if s > t {
      ModIs(s - t, 0, s - t);
    } else if s < t {
      ModIs(s - t, -1, s - t + M);
    }
  }
}
