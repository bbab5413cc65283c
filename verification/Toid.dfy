// The transaction index an event id carries (backend/src/services/indexer.ts):
// the 64-bit operation id is converted to a double before it is divided by
// 4096 and reduced modulo 2^20. Operation ids are those of SEP-0035 (Operation
// IDs, 'Specification'); rounding is that of section 4.3.1 of IEEE 754-2019,
// to nearest with ties to even.
module Toid {
  import opened Arithmetic

  const TwoTo53: int := 0x20_0000_0000_0000
  const TwoTo62: int := 0x4000_0000_0000_0000
  const TwoTo63: int := 0x8000_0000_0000_0000
  const TwoTo32: int := 0x1_0000_0000

  // ---------------------------------------------------------------- doubles

  // The distance between neighbouring doubles around x, from u upwards.
  function UlpFrom(x: nat, u: nat): (r: nat)
    requires u >= 1
    ensures r >= u
    decreases x - TwoTo53 * u
  {
    if x < TwoTo53 * u then u else UlpFrom(x, 2 * u)
  }

  function Ulp(x: nat): (r: nat)
    ensures r >= 1
  {
    UlpFrom(x, 1)
  }

  // The multiple of u nearest to x, the even one when two are as near.
  function RoundTo(x: nat, u: nat): nat
    requires u >= 1
  {
    var q, r := x / u, x % u;
    if 2 * r < u || (2 * r == u && q % 2 == 0) then q * u else (q + 1) * u
  }

  // Number(x)
  function ToDouble(x: nat): nat { RoundTo(x, Ulp(x)) }

  // Math.floor(toid / 4096) % 1048576; dividing a double by a power of two is exact.
  function TxIndex(toid: nat): nat {
    ToDouble(toid) / 4096 % 1048576
  }

  // -------------------------------------------- it is the nearest double

  function PowerOfTwo(k: nat): (r: nat)
    ensures r >= 1
  {
    if k == 0 then 1 else 2 * PowerOfTwo(k - 1)
  }

  function Scaled(m: nat, k: nat): nat { m * PowerOfTwo(k) }

  // A significand of at most 53 bits times a power of two.
  ghost predicate IsDouble(d: nat) {
    exists m: nat, k: nat :: m <= TwoTo53 && d == Scaled(m, k)
  }

  function Apart(a: int, b: int): nat { if a < b then b - a else a - b }

  // The spacing at x is a power of two, and x fills its 53 bits.
  lemma {:induction false} UlpFromIs(x: nat, j: nat) returns (k: nat)
    requires j > 0 ==> x >= TwoTo53 * PowerOfTwo(j - 1)
    ensures k >= j && UlpFrom(x, PowerOfTwo(j)) == PowerOfTwo(k) && x < TwoTo53 * PowerOfTwo(k)
    ensures k > 0 ==> x >= TwoTo53 * PowerOfTwo(k - 1)
    decreases x - TwoTo53 * PowerOfTwo(j)
  {
    if x < TwoTo53 * PowerOfTwo(j) {
      k := j;
    } else {
      k := UlpFromIs(x, j + 1);
    }
  }

  lemma {:induction false} PowersDivide(j: nat, k: nat) returns (c: nat)
    requires j <= k
    ensures PowerOfTwo(k) == c * PowerOfTwo(j) && c >= 1 && (j < k ==> c >= 2)
    decreases k
  {
    if j == k {
      c := 1;
    } else {
      var c' := PowersDivide(j, k - 1);
      c := 2 * c';
      Associate(2, c', PowerOfTwo(j));
    }
  }

  lemma Associate(a: int, b: int, c: int)
    ensures a * b * c == a * (b * c)
  {}

  lemma CancelRight(a: int, b: int, u: int)
    requires u > 0 && a * u < b * u
    ensures a < b
  {
    if b <= a {
      MulLe(u, b, a);
    }
  }

  lemma QuotientBounds(x: nat, u: nat)
    requires u >= 1
    ensures x == x / u * u + x % u && (x / u + 1) * u == x / u * u + u && x < (x / u + 1) * u
  {
    assert (x / u + 1) * u == x / u * u + u;
  }

  // No multiple of u is nearer to x.
  lemma NearestMultiple(x: nat, u: nat, m: nat)
    requires u >= 1
    ensures Apart(RoundTo(x, u), x) <= Apart(m * u, x)
    ensures Apart(RoundTo(x, u), x) * 2 <= u
  {
    var q, r := x / u, x % u;
    assert x == q * u + r;
    assert (q + 1) * u == q * u + u;
    if m <= q {
      MulLe(u, m, q);
      assert u * m == m * u && u * q == q * u;
    } else {
      MulLe(u, q + 1, m);
      assert u * m == m * u && u * (q + 1) == (q + 1) * u;
    }
  }

  lemma MultipleBound(x: nat, u: nat, top: nat) returns (m: nat)
    requires u >= 1 && x < top * u
    ensures m <= top && RoundTo(x, u) == m * u
  {
    var q := x / u;
    QuotientBounds(x, u);
    CancelRight(q, top, u);
    m := if RoundTo(x, u) == q * u then q else q + 1;
  }

  // The conversion yields a double, and none is nearer.
  lemma ToDoubleIsNearest(x: nat, d: nat)
    requires IsDouble(d)
    ensures IsDouble(ToDouble(x)) && Apart(ToDouble(x), x) <= Apart(d, x)
  {
    var k := UlpFromIs(x, 0);
    var u := PowerOfTwo(k);
    assert Ulp(x) == u;
    var significand := MultipleBound(x, u, TwoTo53);
    assert ToDouble(x) == Scaled(significand, k);
    var m: nat, j: nat :| m <= TwoTo53 && d == Scaled(m, j);
    if k <= j {
      var c := PowersDivide(k, j);
      Associate(m, c, u);
      NearestMultiple(x, u, m * c);
    } else {
      Coarser(x, k, m, j);
    }
  }

  // A finer double lies at or below 2^52·u, which is at or below x.
  lemma Coarser(x: nat, k: nat, m: nat, j: nat)
    requires j < k && m <= TwoTo53 && x >= TwoTo53 * PowerOfTwo(k - 1)
    ensures Apart(RoundTo(x, PowerOfTwo(k)), x) <= Apart(m * PowerOfTwo(j), x)
  {
    var c := PowersDivide(j, k - 1);
    var half := PowerOfTwo(k - 1);
    MulLe(PowerOfTwo(j), m, TwoTo53);
    MulLe(PowerOfTwo(j), 1, c);
    assert m * PowerOfTwo(j) <= TwoTo53 * PowerOfTwo(j) <= TwoTo53 * half;
    NearestMultiple(x, PowerOfTwo(k), TwoTo53 / 2);
    assert TwoTo53 / 2 * PowerOfTwo(k) == TwoTo53 * half;
  }

  // -------------------------------------------------- unpacking a TOID

  function Pack(ledger: nat, tx: nat, op: nat): nat {
    ledger * TwoTo32 + tx * 4096 + op
  }

  // Below 2^63 the spacing is 1, 2, 4, …, 1024.
  lemma SmallUlp(x: nat)
    requires x < TwoTo63
    ensures Ulp(x) in {1, 2, 4, 8, 16, 32, 64, 128, 256, 512, 1024}
    ensures x < TwoTo53 * Ulp(x)
    ensures x >= TwoTo62 ==> Ulp(x) == 1024
  {
    UlpStep(x, 1);
    UlpStep(x, 2);
    UlpStep(x, 4);
    UlpStep(x, 8);
    UlpStep(x, 16);
    UlpStep(x, 32);
    UlpStep(x, 64);
    UlpStep(x, 128);
    UlpStep(x, 256);
    UlpStep(x, 512);
    UlpStep(x, 1024);
  }

  lemma UlpStep(x: nat, u: nat)
    requires u >= 1
    ensures UlpFrom(x, u) == if x < TwoTo53 * u then u else UlpFrom(x, 2 * u)
  {}

  // Rounding leaves the block of 4096 exactly when the operation index is
  // within half a spacing of its end.
  lemma BlockKept(block: nat, op: nat, u: nat)
    requires op < 4096 && u in {1, 2, 4, 8, 16, 32, 64, 128, 256, 512, 1024}
    ensures RoundTo(block * 4096 + op, u) / 4096 == if op + u / 2 < 4096 then block else block + 1
  {
    match u
    case 1 => Kept(block, op, 1, 4096);
    case 2 => Kept(block, op, 2, 2048);
    case 4 => Kept(block, op, 4, 1024);
    case 8 => Kept(block, op, 8, 512);
    case 16 => Kept(block, op, 16, 256);
    case 32 => Kept(block, op, 32, 128);
    case 64 => Kept(block, op, 64, 64);
    case 128 => Kept(block, op, 128, 32);
    case 256 => Kept(block, op, 256, 16);
    case 512 => Kept(block, op, 512, 8);
    case _ => Kept(block, op, 1024, 4);
  }

  lemma Kept(block: nat, op: nat, u: nat, c: nat)
    requires op < 4096 && u * c == 4096 && c % 2 == 0 && u >= 1 && (u == 1 || u % 2 == 0)
    ensures RoundTo(block * 4096 + op, u) / 4096 == if op + u / 2 < 4096 then block else block + 1
  {
    RoundShifts(block, op, u, c);
    RoundInBlock(op, u, c);
  }

  // An even multiple of u in front does not change the rounding.
  lemma RoundShifts(block: nat, op: nat, u: nat, c: nat)
    requires u >= 1 && u * c == 4096 && c % 2 == 0
    ensures RoundTo(block * 4096 + op, u) == block * 4096 + RoundTo(op, u)
  {
    var q, r := op / u, op % u;
    var x, p := block * 4096 + op, block * c + q;
    QuotientBounds(op, u);
    Regroup(block, c, u, q);
    QuotientIs(x, p, r, u);
    EvenBlock(block, c, q);
    Regroup(block, c, u, q + 1);
  }

  lemma Regroup(block: nat, c: nat, u: nat, q: nat)
    requires u * c == 4096
    ensures (block * c + q) * u == block * 4096 + q * u
  {
    assert (block * c + q) * u == block * c * u + q * u;
    Associate(block, c, u);
  }

  lemma RoundInBlock(op: nat, u: nat, c: nat)
    requires op < 4096 && u * c == 4096 && c % 2 == 0 && u >= 1 && (u == 1 || u % 2 == 0)
    ensures if op + u / 2 < 4096 then RoundTo(op, u) < 4096 else RoundTo(op, u) == 4096
  {
    var q, r := op / u, op % u;
    QuotientBounds(op, u);
    assert u * c == c * u;
    CancelRight(q, c, u);
    if q == c - 1 {
      assert (q + 1) * u == 4096;
    } else {
      MulLe(u, q + 2, c);
      assert u * (q + 2) == q * u + 2 * u;
    }
  }

  lemma EvenBlock(block: nat, c: nat, q: nat)
    requires c % 2 == 0
    ensures (block * c + q) % 2 == q % 2
  {
    var h := c / 2;
    assert block * c == 2 * (block * h);
  }

  lemma QuotientIs(x: nat, q: nat, r: nat, u: nat)
    requires u >= 1 && r < u && x == q * u + r
    ensures x / u == q && x % u == r
  {
    QuotientBounds(x, u);
    assert (q + 1) * u == q * u + u;
    CancelRight(q, x / u + 1, u);
    CancelRight(x / u, q + 1, u);
  }

  // The transaction index comes back exactly when the operation index and half
  // the spacing of doubles at the id stay below 4096; otherwise the event is
  // placed in the next transaction.
  lemma TxIndexExactIff(ledger: nat, tx: nat, op: nat)
    requires tx < 1048576 && op < 4096 && Pack(ledger, tx, op) < TwoTo63
    ensures var toid := Pack(ledger, tx, op);
            TxIndex(toid) == if op + Ulp(toid) / 2 < 4096 then tx else (tx + 1) % 1048576
    ensures TxIndex(Pack(ledger, tx, op)) == tx <==> op + Ulp(Pack(ledger, tx, op)) / 2 < 4096
  {
    var toid := Pack(ledger, tx, op);
    var block := ledger * 1048576 + tx;
    assert toid == block * 4096 + op;
    SmallUlp(toid);
    BlockKept(block, op, Ulp(toid));
  }

  // Every operation index up to 3583 is safe, for every id.
  lemma SafeUpTo3583(ledger: nat, tx: nat, op: nat)
    requires tx < 1048576 && op <= 3583 && Pack(ledger, tx, op) < TwoTo63
    ensures TxIndex(Pack(ledger, tx, op)) == tx
  {
    SmallUlp(Pack(ledger, tx, op));
    TxIndexExactIff(ledger, tx, op);
  }

  // From 3584 on it is wrong for every id from 2^62 on, and collides with
  // the first operation of the next transaction.
  lemma TightAt3584(ledger: nat, tx: nat, op: nat)
    requires tx + 1 < 1048576 && 3584 <= op < 4096 && TwoTo62 <= Pack(ledger, tx, op) && Pack(ledger, tx + 1, 0) < TwoTo63
    ensures TxIndex(Pack(ledger, tx, op)) == tx + 1 == TxIndex(Pack(ledger, tx + 1, 0))
  {
    SmallUlp(Pack(ledger, tx, op));
    TxIndexExactIff(ledger, tx, op);
    SafeUpTo3583(ledger, tx + 1, 0);
  }

  // Up to 2^53 nothing is rounded: ledgers below 2^21 are always unpacked exactly.
  lemma ExactBelowTwoTo53(ledger: nat, tx: nat, op: nat)
    requires tx < 1048576 && op < 4096 && ledger < 0x20_0000
    ensures TxIndex(Pack(ledger, tx, op)) == tx
  {
    assert Pack(ledger, tx, op) < TwoTo53;
    UlpStep(Pack(ledger, tx, op), 1);
    TxIndexExactIff(ledger, tx, op);
  }
}
