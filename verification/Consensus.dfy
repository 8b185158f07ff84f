/** internal/consensus/consensus.go: the monetary constants, the reward schedule, the difficulty
    adjustment and the proof-of-work target. */
module Consensus {
  import opened Machine
  import opened Text

  const COIN_UNIT: u64 := 100_000_000
  const MAX_SUPPLY: u64 := 785_000_000 * COIN_UNIT
  const BLOCK_REWARD: u64 := 50 * COIN_UNIT
  const HALVING_INTERVAL: u64 := 7_850_000
  const ADDRESS_PREFIX := "xcosh"
  const GENESIS_BITS: u32 := 0x1e0f_fff0
  const MAX_BLOCK_SIZE_BYTES: u64 := 4 * 1024 * 1024
  const TARGET_BLOCK_TIME_SEC: i64 := 35
  const EXPECTED_GENESIS_HASH := "000001c3e940690aa89495fe56d78c3e4d99a04957b9032fb19ffd7e98759b62"
  const POW_LIMIT: nat := 0x0_0000_0fff_ffff_ffff_ffff_ffff_ffff_ffff_ffff_ffff_ffff_ffff_ffff_ffff_ffff_ffff

  // ---- The reward schedule ----

  /** What one block pays in the given halving era: BlockReward >> era. */
  function EraReward(era: nat): u64 {
    if era >= 64 then 0
    else
      QuotientBounded(BLOCK_REWARD, Pow2(era));
      BLOCK_REWARD / Pow2(era)
  }

  function CalculateBlockReward(index: u64): u64 { EraReward(index / HALVING_INTERVAL) }

  /** Coins issued by the blocks below the given height, each paid by the schedule. */
  ghost function EmittedBefore(height: nat): nat {
    if height == 0 then 0 else EmittedBefore(height - 1) + EraReward((height - 1) / HALVING_INTERVAL)
  }

  ghost function ErasTotal(eras: nat): nat {
    if eras == 0 then 0 else ErasTotal(eras - 1) + EraReward(eras - 1)
  }

  const PAID_ERAS: nat := 33
  const TOTAL_EMISSION: nat := 78_499_999_913_650_000

  lemma Distribute(a: int, b: int, c: int)
    ensures a * (b + c) == a * b + a * c && (b + c) * a == b * a + c * a
  {
  }

  /** The next height is in the same era, or is the first of the next one. */
  lemma NextHeight(height: nat)
    ensures var era, r := height / HALVING_INTERVAL, height % HALVING_INTERVAL;
            if r + 1 < HALVING_INTERVAL then
              (height + 1) / HALVING_INTERVAL == era && (height + 1) % HALVING_INTERVAL == r + 1
            else (height + 1) / HALVING_INTERVAL == era + 1 && (height + 1) % HALVING_INTERVAL == 0
  {
  }

  /** The sum by full eras and the part of the current one. */
  ghost function ByEras(era: nat, r: nat): int { HALVING_INTERVAL * ErasTotal(era) + r * EraReward(era) }

  lemma ByErasStep(era: nat, r: nat)
    requires r < HALVING_INTERVAL
    ensures ByEras(era, r + 1) == ByEras(era, r) + EraReward(era)
    ensures ByEras(era + 1, 0) == ByEras(era, HALVING_INTERVAL)
  {
    hide EraReward;
    Distribute(EraReward(era), r, 1);
  }

  lemma {:induction false} EmissionByEras(height: nat)
    ensures EmittedBefore(height) == ByEras(height / HALVING_INTERVAL, height % HALVING_INTERVAL)
  {
    hide EraReward, ErasTotal;
    if height == 0 {
      ErasTotalEnds();
    } else {
      hide ByEras;
      EmissionByEras(height - 1);
      NextHeight(height - 1);
      ByErasStep((height - 1) / HALVING_INTERVAL, (height - 1) % HALVING_INTERVAL);
    }
  }

  lemma RewardVanishes(era: nat)
    ensures EraReward(era) == 0 <==> era >= PAID_ERAS
  {
    assert Pow2(33) == 2 * Pow2(32);
    hide Pow2;
    Pow2Values();
    QuotientZero(BLOCK_REWARD, Pow2(era));
    if era >= PAID_ERAS {
      Pow2Monotone(33, era);
    } else {
      Pow2Monotone(era, 32);
    }
  }

  /** The first `eras` terms of pay, pay >> 1, pay >> 2, ... */
  ghost function PayFrom(pay: nat, eras: nat): nat
    decreases eras
  {
    if eras == 0 then 0 else pay + PayFrom(pay / 2, eras - 1)
  }

  lemma HalveQuotient(n: nat, b: nat)
    requires b >= 1
    ensures n / (2 * b) == n / b / 2
  {
    var q, r := n / b, n % b;
    Distribute(b, q / 2 * 2, q % 2);
    DivideExact(q / 2, 2 * b, q % 2 * b + r);
  }

  lemma EraHalves(era: nat)
    requires era < 63
    ensures EraReward(era + 1) == EraReward(era) / 2
  {
    HalveQuotient(BLOCK_REWARD, Pow2(era));
  }

  lemma {:induction false} ErasFrom(era: nat, eras: nat)
    requires era + eras < 64
    ensures ErasTotal(era + eras) == ErasTotal(era) + PayFrom(EraReward(era), eras)
    decreases eras
  {
    if eras > 0 {
      EraHalves(era);
      ErasFrom(era + 1, eras - 1);
    }
  }

  lemma EraRewardValues()
    ensures EraReward(0) == 5_000_000_000 && EraReward(8) == 19_531_250 && EraReward(16) == 76_293
    ensures EraReward(24) == 298 && EraReward(32) == 1
  {
    Pow2Values();
  }

  lemma PayFromValues()
    ensures PayFrom(5_000_000_000, 8) == 9_960_937_500
    ensures PayFrom(19_531_250, 8) == 38_909_909
    ensures PayFrom(76_293, 8) == 151_988
    ensures PayFrom(298, 8) == 591
  {
    assert PayFrom(312_500_000, 4) == 585_937_500;
    assert PayFrom(1_220_703, 4) == 2_288_816;
    assert PayFrom(4_768, 4) == 8_940;
    assert PayFrom(18, 4) == 33;
  }

  lemma ErasTotalEnds()
    ensures ErasTotal(0) == 0 && ErasTotal(33) == ErasTotal(32) + EraReward(32)
  {
    hide EraReward;
  }

  lemma ErasTotalLimit()
    ensures ErasTotal(PAID_ERAS) == 9_999_999_989
  {
    hide EraReward, ErasTotal, PayFrom;
    EraRewardValues();
    PayFromValues();
    ErasTotalEnds();
    ErasFrom(0, 8);
    ErasFrom(8, 8);
    ErasFrom(16, 8);
    ErasFrom(24, 8);
  }

  lemma {:induction false} ErasTotalCapped(eras: nat)
    ensures eras >= PAID_ERAS ==> ErasTotal(eras) == ErasTotal(PAID_ERAS)
  {
    hide EraReward;
    if eras > PAID_ERAS {
      RewardVanishes(eras - 1);
      ErasTotalCapped(eras - 1);
    }
  }

  lemma {:induction false} EmissionMonotone(low: nat, high: nat)
    requires low <= high
    ensures EmittedBefore(low) <= EmittedBefore(high)
    decreases high
  {
    if low < high {
      EmissionMonotone(low, high - 1);
    }
  }

  lemma TimesZero(a: int, b: int)
    requires b == 0
    ensures a * b == 0
  {
  }

  lemma EmissionComplete(height: nat)
    requires height >= PAID_ERAS * HALVING_INTERVAL
    ensures EmittedBefore(height) == TOTAL_EMISSION
  {
    hide EraReward, ErasTotal, EmittedBefore;
    var era := height / HALVING_INTERVAL;
    EmissionByEras(height);
    RewardVanishes(era);
    ErasTotalCapped(era);
    ErasTotalLimit();
    TimesZero(height % HALVING_INTERVAL, EraReward(era));
  }

  /** The schedule never issues more than 78,499,999,913,650,000 units, reaches that exactly when 33 full
      eras have passed, and so always stays below MaxSupply. */
  lemma EmissionBound(height: nat)
    ensures EmittedBefore(height) <= 78_499_999_913_650_000 < MAX_SUPPLY == 78_500_000_000_000_000
    ensures EmittedBefore(height) == 78_499_999_913_650_000 <==> height >= 33 * 7_850_000
  {
    if height >= PAID_ERAS * HALVING_INTERVAL {
      EmissionComplete(height);
    } else {
      EmissionMonotone(height + 1, PAID_ERAS * HALVING_INTERVAL);
      EmissionComplete(PAID_ERAS * HALVING_INTERVAL);
      RewardVanishes(height / HALVING_INTERVAL);
    }
  }

  /** What a block may claim when `supply` coins circulate: the schedule, cut to what MaxSupply leaves. */
  function AllowedReward(index: u64, supply: u64): u64 {
    var scheduled := CalculateBlockReward(index);
    if supply >= MAX_SUPPLY then 0
    else if supply + scheduled > MAX_SUPPLY then MAX_SUPPLY - supply
    else scheduled
  }

  /** On a supply that followed the schedule the cut never happens. */
  lemma AllowedIsScheduled(index: u64)
    ensures EmittedBefore(index) < TWO64
    ensures AllowedReward(index, EmittedBefore(index)) == CalculateBlockReward(index)
    ensures EmittedBefore(index + 1) == EmittedBefore(index) + CalculateBlockReward(index)
  {
    EmissionBound(index);
    EmissionBound(index + 1);
  }

  // ---- Difficulty ----

  function CalculateNextDifficulty(prevTime: i64, time: i64, prev: u64): u64 {
    if prevTime == 0 || time <= prevTime then
      if prev < 1 then 1 else prev
    else
      var elapsed := WrapInt64(time - prevTime);
      var next :=
        if elapsed < TARGET_BLOCK_TIME_SEC then Wrap64(prev + 1)
        else if elapsed > TARGET_BLOCK_TIME_SEC * 2 && prev > 1 then prev - 1
        else prev;
      if next < 1 then 1 else next
  }

  /** The time since the parent, in 64 bits, counts as early; a parent without a time, or one not in the past,
      does not count. */
  predicate Early(prevTime: i64, time: i64) {
    prevTime != 0 && time > prevTime && WrapInt64(time - prevTime) < 35
  }

  /** The next difficulty is at least 1, and moves by at most 1 except where an early block wraps the largest
      one. It rises exactly on an early block, or from zero. It falls exactly on a block later than twice the
      target time, from a difficulty above 1. */
  lemma DifficultyMovesByOne(prevTime: i64, time: i64, prev: u64)
    ensures var next := CalculateNextDifficulty(prevTime, time, prev);
            && next >= 1
            && (-1 <= next - prev <= 1 <==> !(Early(prevTime, time) && prev == TWO64 - 1))
            && (next > prev <==> prev == 0 || (Early(prevTime, time) && prev < TWO64 - 1))
            && (next < prev <==>
                  || (Early(prevTime, time) && prev == TWO64 - 1)
                  || (prev > 1 && prevTime != 0 && 70 < time - prevTime < TWO63))
  {
    ElapsedWraps(prevTime, time);
  }

  lemma ElapsedWraps(prevTime: i64, time: i64)
    ensures WrapInt64(time - prevTime) == time - prevTime || WrapInt64(time - prevTime) == time - prevTime - TWO64
          || WrapInt64(time - prevTime) == time - prevTime + TWO64
    ensures WrapInt64(time - prevTime) == time - prevTime <==> -TWO63 <= time - prevTime < TWO63
  {
  }

  /** A block found sooner never faces a lower difficulty than one found later, except exactly where only the
      later one counts as early, or where an early one wraps the largest difficulty; an early and a late one, from
      a difficulty above 1, lie two apart. */
  lemma DifficultyFallsWithTime(prevTime: i64, time: i64, later: i64, prev: u64)
    requires time <= later
    ensures CalculateNextDifficulty(prevTime, later, prev) <= CalculateNextDifficulty(prevTime, time, prev)
       <==> !(0 < prev < TWO64 - 1 && !Early(prevTime, time) && Early(prevTime, later))
            && !(prev == TWO64 - 1 && Early(prevTime, time) && !Early(prevTime, later))
    ensures Early(prevTime, later) && !Early(prevTime, time) ==> time <= prevTime || later - prevTime >= TWO63
    ensures 1 < prev < TWO64 - 1 && Early(prevTime, time)
            && 70 < later - prevTime < TWO63 ==>
              CalculateNextDifficulty(prevTime, time, prev) == CalculateNextDifficulty(prevTime, later, prev) + 2
  {
    ElapsedWraps(prevTime, time);
    ElapsedWraps(prevTime, later);
  }

  // ---- Proof of work ----

  /** big.Int.SetBytes. */
  function BigEndian(bytes: string): nat {
    if bytes == "" then 0 else bytes[0] as int * Pow2(8 * (|bytes| - 1)) + BigEndian(bytes[1..])
  }

  predicate ValidatePoW(hashHex: string, difficulty: u64) {
    match HexDecode(hashHex)
    case None => false
    case Some(bytes) =>
      var target := if difficulty > 1 then POW_LIMIT / Pow2(difficulty) else POW_LIMIT;
      BigEndian(bytes) <= POW_LIMIT && BigEndian(bytes) <= target
  }

  /** Leading zero bits of a byte, and of a byte string read from its first byte. */
  function ByteZeros(b: nat): nat
    requires b < 256
  {
    if b >= 128 then 0 else if b >= 64 then 1 else if b >= 32 then 2 else if b >= 16 then 3
    else if b >= 8 then 4 else if b >= 4 then 5 else if b >= 2 then 6 else if b >= 1 then 7 else 8
  }

  function LeadingZeroBits(bytes: string): nat
    requires IsBytes(bytes)
  {
    if bytes == "" then 0
    else if bytes[0] as int == 0 then 8 + LeadingZeroBits(bytes[1..])
    else ByteZeros(bytes[0] as int)
  }

  lemma PowLimitIsPow2()
    ensures POW_LIMIT + 1 == Pow2(236)
  {
    hide Pow2;
    Pow2Values();
    Pow2Sum(32, 24);
    Pow2Sum(56, 3);
    Pow2Sum(59, 59);
    Pow2Sum(118, 118);
  }

  lemma ByteZerosMeaning(b: nat, j: nat)
    requires b < 256 && 1 <= j <= 8
    ensures b < Pow2(j) <==> ByteZeros(b) >= 8 - j
  {
    assert Pow2(1) == 2 && Pow2(2) == 4 && Pow2(3) == 8 && Pow2(4) == 16;
    assert Pow2(5) == 32 && Pow2(6) == 64 && Pow2(7) == 128 && Pow2(8) == 256;
  }

  lemma {:induction false} BigEndianFits(bytes: string)
    requires IsBytes(bytes)
    ensures BigEndian(bytes) < Pow2(8 * |bytes|)
  {
    if bytes != "" {
      BigEndianFits(bytes[1..]);
      var low := 8 * (|bytes| - 1);
      Pow2Values();
      Pow2Sum(8, low);
      LeadingByte(bytes[0] as int, BigEndian(bytes[1..]), Pow2(low), Pow2(8));
    }
  }

  /** A byte string is below 2^k exactly when all but its last k bits are zero. */
  lemma {:induction false} BelowPow2(bytes: string, k: nat)
    requires IsBytes(bytes) && k <= 8 * |bytes|
    ensures BigEndian(bytes) < Pow2(k) <==> LeadingZeroBits(bytes) >= 8 * |bytes| - k
  {
    if bytes != "" {
      var rest, low := bytes[1..], 8 * (|bytes| - 1);
      var b, unit := bytes[0] as int, Pow2(8 * (|bytes| - 1));
      BigEndianFits(rest);
      if k > low {
        ByteZerosMeaning(b, k - low);
        Pow2Sum(k - low, low);
        LeadingByte(b, BigEndian(rest), unit, Pow2(k - low));
      } else if b == 0 {
        BelowPow2(rest, k);
      } else {
        Pow2Monotone(k, low);
        LeadingByte(b, BigEndian(rest), unit, 1);
      }
    }
  }

  lemma LeadingByte(b: nat, rest: nat, unit: nat, limit: nat)
    requires rest < unit
    ensures b * unit + rest < limit * unit <==> b < limit
  {
    if b < limit {
      assert (b + 1) * unit <= limit * unit;
    } else {
      assert b * unit >= limit * unit;
    }
  }

  /** How far the limit is shifted: not at all below difficulty 2. */
  function Shift(difficulty: u64): nat { if difficulty > 1 then difficulty else 0 }

  lemma ShiftedLimit(v: nat, d: nat)
    ensures v <= POW_LIMIT / Pow2(d) <==> v < Pow2(if d <= 236 then 236 - d else 0)
  {
    hide Pow2;
    PowLimitIsPow2();
    if d <= 236 {
      Pow2Sum(236 - d, d);
      QuotientOfPower(Pow2(236 - d), Pow2(d));
    } else {
      Pow2Values();
      Pow2Monotone(236, d);
      QuotientZero(POW_LIMIT, Pow2(d));
    }
  }

  lemma QuotientOfPower(a: nat, b: nat)
    requires a >= 1 && b >= 1
    ensures (a * b - 1) / b == a - 1
  {
    assert a * b - 1 == (a - 1) * b + (b - 1);
    DivideExact(a - 1, b, b - 1);
  }

  lemma DivideExact(q: nat, b: nat, r: nat)
    requires r < b
    ensures (q * b + r) / b == q
  {
    QuotientUnique(q * b + r, b, q, r, (q * b + r) / b, (q * b + r) % b);
  }

  lemma QuotientUnique(n: nat, b: nat, q: nat, r: nat, q': nat, r': nat)
    requires r < b && r' < b && n == q * b + r == q' * b + r'
    ensures q == q'
  {
    Distribute(b, q, 1);
    Distribute(b, q', 1);
    if q < q' {
      MultiplyMonotone(q + 1, q', b);
    } else if q' < q {
      MultiplyMonotone(q' + 1, q, b);
    }
  }

  lemma AcceptedValue(bytes: string, difficulty: u64)
    requires IsBytes(bytes)
    ensures ValidatePoW(HexEncode(bytes), difficulty)
       <==> BigEndian(bytes) < Pow2(if Shift(difficulty) <= 236 then 236 - Shift(difficulty) else 0)
  {
    HexRoundTrip(bytes);
    var k := if Shift(difficulty) <= 236 then 236 - Shift(difficulty) else 0;
    PowLimitIsPow2();
    ShiftedLimit(BigEndian(bytes), Shift(difficulty));
    Pow2Monotone(k, 236);
    assert Pow2(0) == 1;
  }

  /** A 32-byte hash passes exactly when it has min(256, 20 + d) leading zero bits, where difficulties 0
      and 1 both count as d = 0. */
  lemma PoWCountsZeroBits(hash: string, difficulty: u64)
    requires IsBytes(hash) && |hash| == 32
    ensures ValidatePoW(HexEncode(hash), difficulty)
       <==> LeadingZeroBits(hash) >= if 20 + Shift(difficulty) <= 256 then 20 + Shift(difficulty) else 256
  {
    AcceptedValue(hash, difficulty);
    BelowPow2(hash, if Shift(difficulty) <= 236 then 236 - Shift(difficulty) else 0);
  }

  /** A hash accepted at one difficulty is accepted at every lower one, whatever its length. */
  lemma PoWMonotone(hash: string, difficulty: u64, lower: u64)
    requires IsBytes(hash) && lower <= difficulty
    requires ValidatePoW(HexEncode(hash), difficulty)
    ensures ValidatePoW(HexEncode(hash), lower)
  {
    AcceptedValue(hash, difficulty);
    AcceptedValue(hash, lower);
    Pow2Monotone(if Shift(difficulty) <= 236 then 236 - Shift(difficulty) else 0,
                 if Shift(lower) <= 236 then 236 - Shift(lower) else 0);
  }

  /** VerifyCheckpoint with the single hard-coded checkpoint at height 0. */
  predicate VerifyCheckpoint(height: nat, hash: string) {
    height == 0 ==> HexEncode(hash) == EXPECTED_GENESIS_HASH
  }
}
