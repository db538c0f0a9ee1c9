/** Fencing tokens of the gateway's logical read lanes: a 31-bit incarnation epoch above a
    21-bit counter. */
module LogicalFences {

  import opened Outcomes

  const COUNTER_SPAN: int := 0x20_0000
  const MAX_COUNTER: int := COUNTER_SPAN - 1
  const MAX_EPOCH: int := 0x7FFF_FFFF
  const MAX_TOKEN: int := 0xF_FFFF_FFFF_FFFF

  /** The token as a number; the source computes it by shift and or. */
  function Token(epoch: int, counter: int): int {
    epoch * COUNTER_SPAN + counter
  }

  /** In 64-bit arithmetic the shift and the or give that sum, without overflow. */
  lemma ShiftOrIsSum(epoch: bv64, counter: bv64)
    requires epoch <= 0x7FFF_FFFF && counter <= 0x1F_FFFF
    ensures (epoch << 21) | counter == epoch * 0x20_0000 + counter
    ensures (epoch << 21) | counter <= 0xF_FFFF_FFFF_FFFF
    ensures ((epoch << 21) | counter) >> 21 == epoch && ((epoch << 21) | counter) & 0x1F_FFFF == counter
  {
  }

  /** An epoch from four random bytes, masked to 31 bits: never zero. */
  function NewEpoch(random: nat): (epoch: int)
    ensures 1 <= epoch <= MAX_EPOCH
    ensures random % 0x8000_0000 != 0 ==> epoch == random % 0x8000_0000
  {
    var masked := random % (MAX_EPOCH + 1);
    if masked == 0 then 1 else masked
  }

  predicate IsEpoch(epoch: int) {
    1 <= epoch <= MAX_EPOCH
  }

  predicate IsCounter(counter: int) {
    1 <= counter <= MAX_COUNTER
  }

  /** Tokens stay within the integers that JSON clients keep exactly, and determine both the
      incarnation and the allocation. */
  lemma TokenIsExact(e1: int, c1: int, e2: int, c2: int)
    requires IsEpoch(e1) && IsCounter(c1) && IsEpoch(e2) && IsCounter(c2)
    ensures 1 <= Token(e1, c1) <= MAX_TOKEN
    ensures Token(e1, c1) == Token(e2, c2) <==> e1 == e2 && c1 == c2
    ensures e1 == e2 ==> (Token(e1, c1) < Token(e2, c2) <==> c1 < c2)
  {
  }

  /** One allocation: the epoch is drawn on first use, and the last counter value fails
      instead of wrapping. */
  function Allocate(epoch: int, next: nat, random: nat): (int, nat, Result<int, ()>) {
    var e := if epoch == 0 then NewEpoch(random) else epoch;
    if next >= MAX_COUNTER then (e, next, Err(())) else (e, next + 1, Ok(Token(e, next + 1)))
  }

  /** The tokens of a sequence of allocations, failures left out. */
  function Allocations(epoch: int, next: nat, randoms: seq<nat>): seq<int>
    decreases |randoms|
  {
    if randoms == [] then [] else
      var (e, n, r) := Allocate(epoch, next, randoms[0]);
      (if r.Ok? then [r.value] else []) + Allocations(e, n, randoms[1..])
  }

  /** The i-th token of an incarnation is the token of the i-th counter value after the start,
      and there are as many tokens as counter values are left. */
  lemma {:induction false} AllocationsAreConsecutive(epoch: int, next: nat, randoms: seq<nat>)
    requires IsEpoch(epoch) && next <= MAX_COUNTER
    ensures var tokens := Allocations(epoch, next, randoms);
            && |tokens| == (if |randoms| < MAX_COUNTER - next then |randoms| else MAX_COUNTER - next)
            && forall i :: 0 <= i < |tokens| ==> tokens[i] == Token(epoch, next + 1 + i)
    decreases |randoms|
  {
    if randoms != [] {
      var (e, n, r) := Allocate(epoch, next, randoms[0]);
      AllocationsAreConsecutive(e, n, randoms[1..]);
      var tokens, rest := Allocations(epoch, next, randoms), Allocations(e, n, randoms[1..]);
      if r.Ok? {
        assert tokens == [r.value] + rest;
        forall i | 0 <= i < |tokens|
          ensures tokens[i] == Token(epoch, next + 1 + i)
        {
          assert i > 0 ==> tokens[i] == rest[i - 1];
        }
      }
    }
  }

  /** Within one incarnation tokens strictly increase and stay in range, over any sequence of
      allocations, whatever epoch it started with. */
  lemma TokensIncrease(epoch: int, randoms: seq<nat>, i: nat, j: nat)
    requires (epoch == 0 || IsEpoch(epoch)) && i < j < |Allocations(epoch, 0, randoms)|
    ensures 1 <= Allocations(epoch, 0, randoms)[i] < Allocations(epoch, 0, randoms)[j] <= MAX_TOKEN
  {
    var e := if epoch == 0 then NewEpoch(randoms[0]) else epoch;
    assert Allocations(epoch, 0, randoms) == Allocations(e, 0, randoms);
    AllocationsAreConsecutive(e, 0, randoms);
    TokenIsExact(e, i + 1, e, j + 1);
    TokenIsExact(e, j + 1, e, i + 1);
  }

  /** Incarnations with different epochs never issue the same token. */
  lemma IncarnationsAreDisjoint(e1: int, randoms1: seq<nat>, i: nat, e2: int, randoms2: seq<nat>, j: nat)
    requires IsEpoch(e1) && IsEpoch(e2) && e1 != e2
    requires i < |Allocations(e1, 0, randoms1)| && j < |Allocations(e2, 0, randoms2)|
    ensures Allocations(e1, 0, randoms1)[i] != Allocations(e2, 0, randoms2)[j]
  {
    AllocationsAreConsecutive(e1, 0, randoms1);
    AllocationsAreConsecutive(e2, 0, randoms2);
    TokenIsExact(e1, i + 1, e2, j + 1);
  }

  // ---- The Python controller's tokens ----

  const WIDE_SPAN: nat := 0x1_0000_0000

  function BitOr(a: nat, b: nat): nat {
    if a == 0 then b else if b == 0 then a
    else 2 * BitOr(a / 2, b / 2) + if a % 2 == 1 || b % 2 == 1 then 1 else 0
  }

  function Pow2(k: nat): (p: nat)
    ensures p > 0
  {
    if k == 0 then 1 else 2 * Pow2(k - 1)
  }

  /** The epoch, shifted by 32 bits, or-ed with a counter that never wraps or fails. */
  function WideToken(epoch: nat, counter: nat): nat {
    BitOr(epoch * WIDE_SPAN, counter)
  }

  /** Or with a number whose low bits are zero works on the high bits alone. */
  lemma {:induction false} ShiftedOr(a: nat, b: nat, k: nat)
    ensures BitOr(a * Pow2(k), b) == Composed(BitOr(a, High(b, Pow2(k))), Pow2(k), Low(b, Pow2(k)))
  {
    if k == 0 {
      assert a * Pow2(0) == a;
    } else {
      var p := Pow2(k - 1);
      DoubleFirst(a, p);
      OrDouble(a * p, b);
      ShiftedOr(a, b / 2, k - 1);
      HalfFirst(b, p);
      DoubleComposed(BitOr(a, High(b / 2, p)), p, Low(b / 2, p), b % 2);
    }
  }

  function High(b: nat, p: nat): nat
    requires p > 0
  {
    b / p
  }

  function Low(b: nat, p: nat): nat
    requires p > 0
  {
    b % p
  }

  function Composed(high: nat, p: nat, low: nat): nat {
    high * p + low
  }

  lemma DoubleFirst(a: nat, p: nat)
    ensures a * (2 * p) == 2 * (a * p)
  {
  }

  lemma DoubleComposed(high: nat, p: nat, low: nat, bit: nat)
    ensures 2 * Composed(high, p, low) + bit == Composed(high, 2 * p, 2 * low + bit)
  {
  }

  lemma OrDouble(x: nat, b: nat)
    ensures BitOr(2 * x, b) == 2 * BitOr(x, b / 2) + b % 2
  {
  }

  lemma HalfFirst(b: nat, p: nat)
    requires p > 0
    ensures High(b, 2 * p) == High(b / 2, p) && Low(b, 2 * p) == 2 * Low(b / 2, p) + b % 2
  {
    var q, r := b / 2 / p, b / 2 % p;
    DoubleFirst(q, p);
    DivMod(b, 2 * p, q, 2 * r + b % 2);
  }

  lemma DivMod(b: nat, d: nat, q: nat, r: nat)
    requires r < d && b == q * d + r
    ensures b / d == q && b % d == r
  {
    MultiplesApart(b / d, q, d);
    MultiplesApart(q, b / d, d);
  }

  lemma {:induction false} MultiplesApart(x: nat, y: nat, d: nat)
    ensures x < y ==> x * d + d <= y * d
  {
    if x + 1 < y {
      MultiplesApart(x, y - 1, d);
    }
  }

  lemma Pow32()
    ensures Pow2(32) == WIDE_SPAN
  {
    assert Pow2(8) == 256;
    assert Pow2(16) == 65_536;
    assert Pow2(24) == 16_777_216;
  }

  /** Two allocations get the same token exactly if their low 32 bits agree and the epoch covers
      the difference of the others. */
  lemma WideTokensCollide(epoch: nat, c1: nat, c2: nat)
    ensures WideToken(epoch, c1) == WideToken(epoch, c2) <==>
            c1 % WIDE_SPAN == c2 % WIDE_SPAN && BitOr(epoch, c1 / WIDE_SPAN) == BitOr(epoch, c2 / WIDE_SPAN)
  {
    Pow32();
    ShiftedOr(epoch, c1, 32);
    ShiftedOr(epoch, c2, 32);
    if WideToken(epoch, c1) == WideToken(epoch, c2) {
      DivMod(WideToken(epoch, c1), WIDE_SPAN, BitOr(epoch, c1 / WIDE_SPAN), c1 % WIDE_SPAN);
      DivMod(WideToken(epoch, c2), WIDE_SPAN, BitOr(epoch, c2 / WIDE_SPAN), c2 % WIDE_SPAN);
    }
  }

  /** The first 2^32 - 1 tokens of an incarnation are different. */
  lemma WideTokensAreUnique(epoch: nat, c1: nat, c2: nat)
    requires c1 < WIDE_SPAN && c2 < WIDE_SPAN
    ensures WideToken(epoch, c1) == WideToken(epoch, c2) <==> c1 == c2
  {
    WideTokensCollide(epoch, c1, c2);
  }

  /** Then they repeat, for every odd epoch at once. */
  lemma WideTokensRepeat(epoch: nat, c: nat)
    requires epoch % 2 == 1 && c < WIDE_SPAN
    ensures WideToken(epoch, WIDE_SPAN + c) == WideToken(epoch, c)
  {
    WideTokensCollide(epoch, WIDE_SPAN + c, c);
    assert (WIDE_SPAN + c) / WIDE_SPAN == 1 && c / WIDE_SPAN == 0;
    assert BitOr(epoch, 1) == 2 * BitOr(epoch / 2, 0) + 1;
  }
}
