/** The exact period of the generator.  A Pratt-style certificate: the powers of 48271 at
    2^31 - 2 and at its quotients by the seven primes dividing it, evaluated by square and
    multiply with explicit quotients, show that 48271 generates every residue. */
module LehmerPeriod {
  import opened LehmerRandom

  // 2^31 - 2 == 2 * 3^2 * 7 * 11 * 31 * 151 * 331
  const PERIOD: nat := M - 1

  // ----- iterating is multiplying by a power

  /** Closed form: the n-th output from any seed. */
  lemma {:induction false} IterateIsPower(n: nat, seed: nat)
    requires seed < M
    ensures Iterate(n, seed) == Pow(A, n) * seed % M
  {
    if n == 0 {
      ModIs(seed, 0, seed);
    } else {
      IterateIsPower(n - 1, seed);
      ModMul(A, Pow(A, n - 1) * seed);
      ModIs(A, 0, A);
      assert A * (Pow(A, n - 1) * seed) == Pow(A, n) * seed;
      var r := Iterate(n - 1, seed);
      assert r % M == r by { ModIs(r, 0, r); }
      assert A * r % M == A * (Pow(A, n - 1) * seed) % M;
    }
  }

  lemma {:induction false} IterateAdd(m: nat, n: nat, seed: nat)
    ensures Iterate(m + n, seed) == Iterate(m, Iterate(n, seed))
  {
    if m > 0 { IterateAdd(m - 1, n, seed); }
  }

  lemma {:induction false} IterateInRange(n: nat, seed: nat)
    requires 1 <= seed < M
    ensures 1 <= Iterate(n, seed) < M
  {
    if n > 0 {
      IterateInRange(n - 1, seed);
      NextInRange(Iterate(n - 1, seed));
    }
  }

  /** Iterating from a product of powers is iterating the product. */
  lemma IterateProduct(m: nat, n: nat)
    ensures Iterate(m + n, 1) == Iterate(m, 1) * Iterate(n, 1) % M
  {
    var x, y := Iterate(m, 1), Iterate(n, 1);
    IterateInRange(m, 1);
    IterateInRange(n, 1);
    IterateAdd(m, n, 1);
    IterateIsPower(m, y);
    IterateIsPower(m, 1);
    ModMul(Pow(A, m), y);
    ModIs(y, 0, y);
  }

  // The bound variable keeps the verifier from unrolling Iterate at literal exponents.
  ghost predicate PowerIs(e: nat, x: nat) {
    exists n :: n == e && Iterate(n, 1) == x
  }

  lemma PowerOne()
    ensures PowerIs(0, 1) && PowerIs(1, A)
  {
    assert Iterate(0, 1) == 1;
    ModIs(A, 0, A);
    assert Iterate(1, 1) == A;
  }

  /** One square-and-multiply step of the certificate. */
  lemma Step(e: nat, x: nat, f: nat, b: nat, q: nat, z: nat)
    requires x * x * b == q * 2147483647 + z && z < 2147483647
    ensures PowerIs(e, x) && PowerIs(f, b) ==> PowerIs(2 * e + f, z)
  {
    if PowerIs(e, x) && PowerIs(f, b) {
      IterateProduct(e, e);
      IterateProduct(e + e, f);
      IterateInRange(f, 1);
      assert 2 * e + f == e + e + f;
      calc {
        Iterate(2 * e + f, 1);
        (x * x % M) * b % M;
        { ModIs(b, 0, b); ModMul(x * x, b); }
        x * x * b % M;
        { ModIs(x * x * b, q, z); }
        z;
      }
    }
  }

  // ----- the certificate

  lemma PowerRStart()
    ensures PowerIs(1513, 679711916)
  {
    PowerOne();
    Step(1, 48271, 0, 1, 1, 182605794);
    Step(2, 182605794, 1, 48271, 749523989045, 2078669041);
    Step(5, 2078669041, 1, 48271, 97124126573940, 192302371);
    Step(11, 192302371, 1, 48271, 831238611773, 1931656580);
    Step(23, 1931656580, 1, 48271, 83871858416307, 153892771);
    Step(47, 153892771, 0, 1, 11028249, 583514338);
    Step(94, 583514338, 1, 48271, 7653489564185, 1889033429);
    Step(189, 1889033429, 0, 1, 1661687762, 564470027);
    Step(378, 564470027, 0, 1, 148371984, 2068435081);
    Step(756, 2068435081, 1, 48271, 96170133800045, 679711916);
  }

  lemma PowerR()
    ensures PowerIs(1549411, 73136486)
  {
    PowerOne();
    PowerRStart();
    Step(1513, 679711916, 0, 1, 215139374, 1261574078);
    Step(3026, 1261574078, 0, 1, 741132141, 1217951857);
    Step(6052, 1217951857, 0, 1, 690765085, 2013683454);
    Step(12104, 2013683454, 1, 48271, 91146255953389, 2017139753);
    Step(24209, 2017139753, 1, 48271, 91459412493774, 1110291661);
    Step(48419, 1110291661, 0, 1, 574042821, 1710890734);
    Step(96838, 1710890734, 0, 1, 1363059089, 164841173);
    Step(193676, 164841173, 0, 1, 12653233, 1366835178);
    Step(387352, 1366835178, 1, 48271, 41994143292637, 64871225);
    Step(774705, 64871225, 1, 48271, 94593354887, 73136486);
  }

  lemma PowerHalf()
    ensures PowerIs(1073741823, 2147483646)
  {
    PowerOne();
    PowerR();
    Step(1549411, 73136486, 0, 1, 2490796, 1906415184);
    Step(3098822, 1906415184, 1549411, 73136486, 123776785909111900, 345690716);
    Step(7747055, 345690716, 0, 1, 55647488, 651963920);
    Step(15494110, 651963920, 1549411, 73136486, 14476092488239383, 1755000599);
    Step(32537631, 1755000599, 1549411, 73136486, 104895960151125980, 897464226);
    Step(66624673, 897464226, 0, 1, 375063175, 2045379851);
    Step(133249346, 2045379851, 1549411, 73136486, 142479430751732049, 1015182983);
    Step(268048103, 1015182983, 0, 1, 479908887, 2090307400);
    Step(536096206, 2090307400, 1549411, 73136486, 148807404082105982, 2147483646);
  }

  lemma PowerThird()
    ensures PowerIs(715827882, 634005911)
  {
    PowerOne();
    PowerR();
    Step(1549411, 73136486, 1549411, 73136486, 182168131709314, 602171098);
    Step(4648233, 602171098, 1549411, 73136486, 12349348276636172, 566908260);
    Step(10845877, 566908260, 0, 1, 149656541, 792142573);
    Step(21691754, 792142573, 0, 1, 292197734, 503604431);
    Step(43383508, 503604431, 1549411, 73136486, 8637405517319830, 247883836);
    Step(88316427, 247883836, 1549411, 73136486, 2092669482283795, 554655091);
    Step(178182265, 554655091, 1549411, 73136486, 10477320561794882, 634005912);
    Step(357913941, 634005912, 0, 1, 187178839, 634005911);
  }

  lemma PowerSeventh()
    ensures PowerIs(306783378, 1752599774)
  {
    PowerOne();
    PowerR();
    Step(1549411, 73136486, 1549411, 73136486, 182168131709314, 602171098);
    Step(4648233, 602171098, 0, 1, 168853454, 62058866);
    Step(9296466, 62058866, 0, 1, 1793402, 1381708862);
    Step(18592932, 1381708862, 0, 1, 889002988, 465197808);
    Step(37185864, 465197808, 1549411, 73136486, 7370204593840094, 985925086);
    Step(75921139, 985925086, 1549411, 73136486, 33104883089612345, 1253228241);
    Step(153391689, 1253228241, 0, 1, 731358781, 1752599774);
  }

  lemma PowerEleventh()
    ensures PowerIs(195225786, 219454379)
  {
    PowerOne();
    PowerR();
    Step(1549411, 73136486, 1549411, 73136486, 182168131709314, 602171098);
    Step(4648233, 602171098, 1549411, 73136486, 12349348276636172, 566908260);
    Step(10845877, 566908260, 1549411, 73136486, 10945353542632791, 281744823);
    Step(23241165, 281744823, 1549411, 73136486, 2703436132141442, 1840190920);
    Step(48031741, 1840190920, 1549411, 73136486, 115326733526160241, 178271473);
    Step(97612893, 178271473, 0, 1, 14799050, 219454379);
  }

  lemma PowerFull()
    ensures PowerIs(2147483646, 1)
  {
    PowerOne();
    PowerHalf();
    Step(1073741823, 2147483646, 0, 1, 2147483645, 1);
  }

  lemma PowerL()
    ensures PowerIs(1386, 739992498)
  {
    PowerOne();
    Step(1, 48271, 0, 1, 1, 182605794);
    Step(2, 182605794, 1, 48271, 749523989045, 2078669041);
    Step(5, 2078669041, 0, 1, 2012059550, 1596680831);
    Step(10, 1596680831, 1, 48271, 57305018003797, 638022372);
    Step(21, 638022372, 1, 48271, 9150150666811, 1287522347);
    Step(43, 1287522347, 0, 1, 771933139, 1444510476);
    Step(86, 1444510476, 1, 48271, 46902697640322, 2038155762);
    Step(173, 2038155762, 0, 1, 1934393733, 1697016393);
    Step(346, 1697016393, 1, 48271, 64733413053199, 1875966926);
    Step(693, 1875966926, 0, 1, 1638779374, 739992498);
  }

  lemma PowerThirtyFirst()
    ensures PowerIs(69273666, 64)
  {
    PowerOne();
    PowerL();
    Step(1386, 739992498, 1386, 739992498, 188691390691340238, 1049322006);
    Step(4158, 1049322006, 0, 1, 512728780, 1879603376);
    Step(8316, 1879603376, 0, 1, 1645138884, 636767428);
    Step(16632, 636767428, 0, 1, 188812966, 535168182);
    Step(33264, 535168182, 0, 1, 133367713, 319895813);
    Step(66528, 319895813, 1386, 739992498, 35262618865846219, 608589869);
    Step(134442, 608589869, 1386, 739992498, 127628271805696954, 909706940);
    Step(270270, 909706940, 0, 1, 385365782, 1725796646);
    Step(540540, 1725796646, 0, 1, 1386913501, 143831169);
    Step(1081080, 143831169, 1386, 739992498, 7128587290824303, 1646306337);
    Step(2163546, 1646306337, 1386, 739992498, 933939516060720504, 1507919274);
    Step(4328478, 1507919274, 1386, 739992498, 783526403777472214, 723671390);
    Step(8658342, 723671390, 1386, 739992498, 180459711282657282, 799718346);
    Step(17318070, 799718346, 0, 1, 297813412, 801702152);
    Step(34636140, 801702152, 1386, 739992498, 221474408392946624, 64);
  }

  lemma Power151st()
    ensures PowerIs(14221746, 556613938)
  {
    PowerOne();
    PowerL();
    Step(1386, 739992498, 0, 1, 254990950, 1838285354);
    Step(2772, 1838285354, 1386, 739992498, 1164456597216855717, 1572359469);
    Step(6930, 1572359469, 0, 1, 1151261059, 2123559788);
    Step(13860, 2123559788, 0, 1, 2099902450, 1540369794);
    Step(27720, 1540369794, 0, 1, 1104892745, 691161421);
    Step(55440, 691161421, 0, 1, 222448310, 1850952671);
    Step(110880, 1850952671, 0, 1, 1595367580, 1278069981);
    Step(221760, 1278069981, 0, 1, 760640426, 251226739);
    Step(443520, 251226739, 1386, 739992498, 21748493230671472, 1507525874);
    Step(888426, 1507525874, 0, 1, 1058277795, 2033745511);
    Step(1776852, 2033745511, 1386, 739992498, 1425248741566363079, 214221145);
    Step(3555090, 214221145, 0, 1, 21369521, 2073387938);
    Step(7110180, 2073387938, 1386, 739992498, 1481353087127393642, 556613938);
  }

  lemma Power331st()
    ensures PowerIs(6487866, 1627574666)
  {
    PowerOne();
    PowerL();
    Step(1386, 739992498, 0, 1, 254990950, 1838285354);
    Step(2772, 1838285354, 0, 1, 1573605949, 431489313);
    Step(5544, 431489313, 1386, 739992498, 64156038440606832, 1027332258);
    Step(12474, 1027332258, 0, 1, 491464309, 1665723641);
    Step(24948, 1665723641, 0, 1, 1292040222, 175047247);
    Step(49896, 175047247, 1386, 739992498, 10558640939473134, 142034784);
    Step(101178, 142034784, 0, 1, 9394194, 1874181138);
    Step(202356, 1874181138, 0, 1, 1635660854, 2031920506);
    Step(404712, 2031920506, 1386, 739992498, 1422691962452912176, 1025952056);
    Step(810810, 1025952056, 0, 1, 490144650, 671088586);
    Step(1621620, 671088586, 0, 1, 209715166, 746588994);
    Step(3243240, 746588994, 1386, 739992498, 192070478492260546, 1627574666);
  }

  lemma PowerCheck()
    ensures PowerIs(10000, 399268537)
  {
    PowerOne();
    Step(1, 48271, 0, 1, 1, 182605794);
    Step(2, 182605794, 0, 1, 15527417, 1914720637);
    Step(4, 1914720637, 1, 48271, 82407600139964, 564586691);
    Step(9, 564586691, 1, 48271, 7165024886024, 1559527823);
    Step(19, 1559527823, 1, 48271, 54669195764756, 1272185027);
    Step(39, 1272185027, 0, 1, 753651719, 837051536);
    Step(78, 837051536, 0, 1, 326268036, 2071152004);
    Step(156, 2071152004, 0, 1, 1997533545, 1451777401);
    Step(312, 1451777401, 1, 48271, 47375793159734, 605889173);
    Step(625, 605889173, 0, 1, 170945045, 1285444814);
    Step(1250, 1285444814, 0, 1, 769443982, 1211932242);
    Step(2500, 1211932242, 0, 1, 683953873, 1629331733);
    Step(5000, 1629331733, 0, 1, 1236201216, 399268537);
  }

  /** The self-check constant the source records for 10000 calls from seed 1. */
  lemma CheckConstant()
    ensures Iterate(10000, 1) == 399268537
  {
    PowerCheck();
  }

  // ----- divisors of the period

  ghost predicate Divides(d: nat, n: nat)
  {
    exists k: nat :: MulIs(k, d, n)
  }

  ghost predicate MulIs(k: nat, d: nat, n: nat) {
    k * d == n
  }

  ghost predicate IsPrime(p: nat) {
    1 < p && forall d :: 1 < d < p ==> !Divides(d, p)
  }

  lemma MulMonotone(a: nat, b: nat, d: nat)
    ensures a <= b ==> a * d <= b * d
  {
  }

  lemma NotDivides(d: nat, p: nat, q: nat)
    requires q * d < p < (q + 1) * d
    ensures !Divides(d, p)
  {
    forall k: nat ensures !MulIs(k, d, p) {
      MulMonotone(k, q, d);
      MulMonotone(q + 1, k, d);
    }
  }

  lemma NoLargeFactor(p: nat, root: nat, d: nat, k: nat)
    requires 1 < p < (root + 1) * (root + 1) && root < d < p
    requires forall d :: 1 < d <= root && d < p ==> !Divides(d, p)
    ensures !MulIs(k, d, p)
  {
    MulMonotone(root + 1, k, d);
    MulMonotone(root + 1, d, root + 1);
    if 1 < k <= root && k < p {
      assert !Divides(k, p);
      assert !MulIs(d, k, p);
    }
    MulMonotone(2, d, k);
  }

  /** Trial division up to the square root. */
  lemma TrialDivision(p: nat, root: nat)
    requires 1 < p < (root + 1) * (root + 1)
    requires forall d :: 1 < d <= root && d < p ==> !Divides(d, p)
    ensures IsPrime(p)
  {
    forall d, k: nat | root < d < p ensures !MulIs(k, d, p) {
      NoLargeFactor(p, root, d, k);
    }
  }

  lemma Prime151()
    ensures IsPrime(151)
  {
    forall d | 1 < d <= 12 ensures !Divides(d, 151) {
      NotDivides(d, 151, 151 / d);
    }
    TrialDivision(151, 12);
  }

  lemma Prime331()
    ensures IsPrime(331)
  {
    forall d | 1 < d <= 18 ensures !Divides(d, 331) {
      NotDivides(d, 331, 331 / d);
    }
    TrialDivision(331, 18);
  }

  lemma Primes()
    ensures IsPrime(2) && IsPrime(3) && IsPrime(7) && IsPrime(11) && IsPrime(31) && IsPrime(151) && IsPrime(331)
  {
    TrialDivision(2, 1);
    TrialDivision(3, 1);
    NotDivides(2, 7, 3);
    TrialDivision(7, 2);
    NotDivides(2, 11, 5);
    NotDivides(3, 11, 3);
    TrialDivision(11, 3);
    NotDivides(2, 31, 15);
    NotDivides(3, 31, 10);
    NotDivides(4, 31, 7);
    NotDivides(5, 31, 6);
    TrialDivision(31, 5);
    Prime151();
    Prime331();
  }

  lemma Bezout(a: nat, b: nat) returns (g: nat, u: int, v: int, x: nat, y: nat)
    requires a > 0 && b > 0
    ensures g > 0 && g == u * a + v * b && a == x * g && b == y * g
    decreases a + b
  {
    if a == b {
      g, u, v, x, y := a, 1, 0, 1, 1;
    } else if a < b {
      g, u, v, x, y := Bezout(a, b - a);
      // g == u a + v (b - a)
      u, y := u - v, x + y;
    } else {
      g, u, v, x, y := Bezout(a - b, b);
      v, x := v - u, x + y;
    }
  }

  lemma NonNegativeFactor(z: int, e: nat)
    ensures z * e >= 0 && e > 0 ==> z >= 0
  {
  }

  /** A factor coprime to a prime survives dividing the prime out. */
  lemma Strip(e: nat, p: nat, k: nat)
    requires IsPrime(p) && e > 0 && !Divides(p, e) && Divides(e, p * k)
    ensures Divides(e, k)
  {
    var g, u, v, x, y := Bezout(e, p);
    assert MulIs(y, g, p);
    assert Divides(g, p);
    if g == p {
      assert MulIs(x, p, e);
      assert false;
    }
    MulMonotone(1, y, g);
    var w: nat :| MulIs(w, e, p * k);
    var z := u * k + v * w;
    assert z * e == k by {
      assert k == (u * e + v * p) * k;
      assert (u * e + v * p) * k == u * k * e + v * (p * k);
      assert v * (p * k) == v * w * e;
    }
    NonNegativeFactor(z, e);
    assert MulIs(z, e, k);
  }

  lemma CofactorHasPrime(d: nat, e: nat)
    requires d * e == PERIOD && e > 1
    ensures Divides(2, e) || Divides(3, e) || Divides(7, e) || Divides(11, e) || Divides(31, e) || Divides(151, e) ||
      Divides(331, e)
  {
    if !(Divides(2, e) || Divides(3, e) || Divides(7, e) || Divides(11, e) || Divides(31, e) || Divides(151, e) ||
      Divides(331, e)) {
      Primes();
      assert MulIs(d, e, 2 * 1073741823);
      Strip(e, 2, 1073741823);
      Strip(e, 3, 357913941);
      Strip(e, 3, 119304647);
      Strip(e, 7, 17043521);
      Strip(e, 11, 1549411);
      Strip(e, 31, 49981);
      Strip(e, 151, 331);
      Strip(e, 331, 1);
    }
  }

  // ----- the order of the multiplier

  lemma OneSum(m: nat, n: nat)
    requires PowerIs(m, 1) && PowerIs(n, 1)
    ensures PowerIs(m + n, 1)
  {
    IterateProduct(m, n);
    ModIs(1, 0, 1);
    assert Iterate(m + n, 1) == 1;
  }

  lemma {:induction false} OneTimes(k: nat, d: nat)
    requires PowerIs(d, 1)
    ensures PowerIs(k * d, 1)
  {
    if k == 0 {
      PowerOne();
    } else {
      OneTimes(k - 1, d);
      OneSum((k - 1) * d, d);
      assert (k - 1) * d + d == k * d;
    }
  }

  lemma CommonExponent(m: nat, n: nat) returns (d: nat, x: nat, y: nat)
    requires m > 0 && n > 0 && PowerIs(m, 1) && PowerIs(n, 1)
    ensures d > 0 && PowerIs(d, 1) && m == x * d && n == y * d
    decreases m + n
  {
    if m == n {
      d, x, y := m, 1, 1;
    } else if m < n {
      OneDifference(m, n);
      d, x, y := CommonExponent(m, n - m);
      y := x + y;
    } else {
      OneDifference(n, m);
      d, x, y := CommonExponent(m - n, n);
      x := x + y;
    }
  }

  lemma OneDifference(m: nat, n: nat)
    requires m < n && PowerIs(m, 1) && PowerIs(n, 1)
    ensures PowerIs(n - m, 1)
  {
    IterateProduct(m, n - m);
    IterateInRange(n - m, 1);
    ModIs(Iterate(n - m, 1), 0, Iterate(n - m, 1));
  }

  lemma CancelFactor(a: nat, b: nat, p: nat)
    ensures a * p == b * p && p > 0 ==> a == b
  {
  }

  lemma NotOneAt(d: nat, e: nat, p: nat, c: nat, x: nat)
    requires d * e == PERIOD && PERIOD == c * p && p > 0 && Divides(p, e) && PowerIs(c, x) && x != 1
    ensures !PowerIs(d, 1)
  {
    var k: nat :| MulIs(k, p, e);
    assert c == k * d by {
      assert c * p == d * (k * p);
      assert d * (k * p) == (k * d) * p;
      CancelFactor(c, k * d, p);
    }
    if PowerIs(d, 1) { OneTimes(k, d); }
  }

  lemma ProperDivisorIsNotPeriod(d: nat, e: nat)
    requires d * e == PERIOD && e > 1
    ensures !PowerIs(d, 1)
  {
    CofactorHasPrime(d, e);
    PowerHalf(); PowerThird(); PowerSeventh(); PowerEleventh(); PowerThirtyFirst(); Power151st(); Power331st();
    if Divides(2, e) { NotOneAt(d, e, 2, 1073741823, 2147483646); }
    if Divides(3, e) { NotOneAt(d, e, 3, 715827882, 634005911); }
    if Divides(7, e) { NotOneAt(d, e, 7, 306783378, 1752599774); }
    if Divides(11, e) { NotOneAt(d, e, 11, 195225786, 219454379); }
    if Divides(31, e) { NotOneAt(d, e, 31, 69273666, 64); }
    if Divides(151, e) { NotOneAt(d, e, 151, 14221746, 556613938); }
    if Divides(331, e) { NotOneAt(d, e, 331, 6487866, 1627574666); }
  }

  /** The powers of the multiplier return to one exactly at the multiples of 2^31 - 2. */
  lemma OrderExact(n: nat)
    ensures PowerIs(n, 1) <==> n % PERIOD == 0
  {
    PowerFull();
    if n % PERIOD == 0 {
      OneTimes(n / PERIOD, PERIOD);
    } else if PowerIs(n, 1) {
      var d, x, y := CommonExponent(n, PERIOD);
      if y == 1 {
        MultipleMod(x);
      } else {
        assert y > 1 by { assert y != 0; }
        ProperDivisorIsNotPeriod(d, y);
      }
    }
  }

  lemma MultipleMod(x: nat)
    ensures (x * PERIOD) % PERIOD == 0
  {
  }

  // ----- the full cycle

  lemma {:induction false} PowersDistinct(i: nat, j: nat)
    requires i <= j
    ensures Iterate(i, 1) == Iterate(j, 1) <==> (j - i) % PERIOD == 0
  {
    OrderExact(j - i);
    if i > 0 {
      PowersDistinct(i - 1, j - 1);
      IterateInRange(i - 1, 1);
      IterateInRange(j - 1, 1);
      if Iterate(i, 1) == Iterate(j, 1) {
        NextInjective(Iterate(i - 1, 1), Iterate(j - 1, 1));
      }
    }
  }

  ghost function Visited(n: nat): set<nat> {
    set i | 0 <= i < n :: Iterate(i, 1)
  }

  lemma DistinctWithinPeriod(i: nat, j: nat)
    requires i < j < i + PERIOD
    ensures Iterate(i, 1) != Iterate(j, 1)
  {
    PowersDistinct(i, j);
  }

  lemma VisitedGrows(n: nat)
    requires n < PERIOD
    ensures Visited(n + 1) == Visited(n) + {Iterate(n, 1)} && Iterate(n, 1) !in Visited(n)
  {
    forall i: nat | i < n ensures Iterate(i, 1) != Iterate(n, 1) {
      DistinctWithinPeriod(i, n);
    }
  }

  lemma {:induction false} VisitedCount(n: nat)
    requires n <= PERIOD
    ensures |Visited(n)| == n
  {
    if n > 0 {
      VisitedCount(n - 1);
      VisitedGrows(n - 1);
    }
  }

  ghost function Range(n: nat): set<nat> {
    set x: nat {:trigger Index(x)} | 1 <= x <= n && Index(x)
  }

  ghost predicate Index(x: nat) {
    true
  }

  lemma {:induction false} RangeCount(n: nat)
    ensures |Range(n)| == n
  {
    if n > 0 {
      RangeCount(n - 1);
      assert Range(n) == Range(n - 1) + {n};
    }
  }

  lemma SubsetFull<T>(s: set<T>, t: set<T>)
    requires s <= t && |s| == |t|
    ensures s == t
  {
    assert |t - s| == |t| - |s| by { assert t == s + (t - s); }
    assert t - s == {};
  }

  /** Every residue is a power of the multiplier. */
  lemma PowerReaches(t: nat) returns (i: nat)
    requires 1 <= t < M
    ensures i < PERIOD && Iterate(i, 1) == t
  {
    VisitedCount(PERIOD);
    RangeCount(PERIOD);
    forall i | 0 <= i < PERIOD ensures Iterate(i, 1) in Range(PERIOD) { IterateInRange(i, 1); }
    SubsetFull(Visited(PERIOD), Range(PERIOD));
    assert Index(t);
    assert t in Visited(PERIOD);
    i :| 0 <= i < PERIOD && Iterate(i, 1) == t;
  }

  /** From every legal seed the state returns to the seed after exactly the multiples of
      2^31 - 2 calls: the period is 2^31 - 2 whatever the seed. */
  lemma PeriodExact(seed: nat, n: nat)
    requires 1 <= seed < M
    ensures Iterate(n, seed) == seed <==> n % PERIOD == 0
  {
    var i := PowerReaches(seed);
    IterateAdd(n, i, 1);
    PowersDistinct(i, n + i);
  }

  /** From every legal seed every value in 1..2^31-2 is produced within one period. */
  lemma EveryValueProduced(seed: nat, target: nat)
    requires 1 <= seed < M && 1 <= target < M
    ensures exists n :: 0 <= n < PERIOD && Iterate(n, seed) == target
  {
    var i := PowerReaches(seed);
    var j := PowerReaches(target);
    var n := if i <= j then j - i else j - i + PERIOD;
    IterateAdd(n, i, 1);
    if i > j {
      PowersDistinct(j, n + i);
      assert n + i - j == PERIOD;
    }
    assert Iterate(n, seed) == target;
  }
}
