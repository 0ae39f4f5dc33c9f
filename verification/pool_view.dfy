/** The per-range view a pool binding computes for one position of an owner
    (`get_qtty_depoloyed`, `get_fees_uncollected` and their decimal
    conversion). The position, the pool's price/tick state and the two
    boundary ticks arrive already fetched and decoded; the fixed-point
    formula library they are fed to is a parameter. */
module PoolView {
  import opened Numbers
  import opened Decoding

  /** The arguments of the uncollected-fee formula, by name. */
  datatype FeeGrowthInputs = FeeGrowthInputs(
    feeGrowthGlobal0: int, feeGrowthGlobal1: int,
    tickCurrent: int, tickLower: int, tickUpper: int,
    feeGrowthOutside0Lower: int, feeGrowthOutside1Lower: int,
    feeGrowthOutside0Upper: int, feeGrowthOutside1Upper: int,
    liquidity: int,
    feeGrowthInsideLast0: int, feeGrowthInsideLast1: int)

  /** The concentrated-liquidity formula library, uninterpreted: tick to
      square-root price, liquidity to token amounts
      `(sqrtPrice, sqrtPriceLower, sqrtPriceUpper, liquidity) -> (amount0, amount1)`,
      and the uncollected-fee computation. */
  datatype Formulas = Formulas(
    sqrtRatioAtTick: int -> int,
    amountsForLiquidity: (int, int, int, int) -> (int, int),
    uncollectedFees: FeeGrowthInputs -> (int, int))

  /** A result dictionary. */
  type Dict = map<string, Num>

  const Qtty0: string := "qtty_token0"
  const Qtty1: string := "qtty_token1"
  const FeesOwed0: string := "fees_owed_token0"
  const FeesOwed1: string := "fees_owed_token1"

  /** The keys a deployed-quantity result is initialised with. */
  const DeployedKeys: set<string> := {Qtty0, Qtty1, FeesOwed0, FeesOwed1}

  /** The keys an uncollected-fees result is initialised with. */
  const UncollectedKeys: set<string> := {Qtty0, Qtty1}

  /** The four result keys are pairwise different. */
  lemma ResultKeysDistinct()
    ensures Qtty0 != Qtty1 && FeesOwed0 != FeesOwed1
    ensures |Qtty0| != |FeesOwed0| && |Qtty0| != |FeesOwed1|
    ensures |Qtty1| != |FeesOwed0| && |Qtty1| != |FeesOwed1|
  {
    assert Qtty0[10] != Qtty1[10];
    assert FeesOwed0[15] != FeesOwed1[15];
  }

  /** The fields read from a decoded `positions` record. */
  predicate IsPosition(pos: Record) {
    && liquidity in pos
    && feeGrowthInside0LastX128 in pos && feeGrowthInside1LastX128 in pos
    && tokensOwed0 in pos && tokensOwed1 in pos
  }

  /** The fields read from a decoded `slot0` / `globalState` record. */
  predicate IsPoolState(state: Record) {
    sqrtPriceX96 in state && tick in state
  }

  /** The fields read from a decoded `ticks` record. */
  predicate IsTick(t: Record) {
    feeGrowthOutside0X128 in t && feeGrowthOutside1X128 in t
  }

  /** Every successfully decoded getter result carries the fields the views
      read, for both pool families. */
  lemma DecodedRecordsAreReadable(kind: PoolKind, p: seq<int>, s: seq<int>, t: seq<int>)
    ensures DecodePositions(kind, p).Ok? ==> IsPosition(DecodePositions(kind, p).value)
    ensures DecodePoolState(kind, s).Ok? ==> IsPoolState(DecodePoolState(kind, s).value)
    ensures DecodeTicks(t).Ok? ==> IsTick(DecodeTicks(t).value)
  {
    PositionsReadable(kind, p);
    PoolStateReadable(kind, s);
    TicksReadable(t);
  }

  lemma PositionsReadable(kind: PoolKind, p: seq<int>)
    ensures DecodePositions(kind, p).Ok? ==> IsPosition(DecodePositions(kind, p).value)
  {
    if DecodePositions(kind, p).Ok? {
      if kind == UniswapV3 { UniswapPositionsEntries(p); } else { AlgebraPositionsEntries(p); }
    }
  }

  lemma PoolStateReadable(kind: PoolKind, s: seq<int>)
    ensures DecodePoolState(kind, s).Ok? ==> IsPoolState(DecodePoolState(kind, s).value)
  {
    if DecodePoolState(kind, s).Ok? {
      var l := PoolStateLayout(kind);
      assert l[0] == sqrtPriceX96 && l[1] == tick;
      assert sqrtPriceX96 in Names(l) && tick in Names(l);
    }
  }

  lemma TicksReadable(t: seq<int>)
    ensures DecodeTicks(t).Ok? ==> IsTick(DecodeTicks(t).value)
  {
    if DecodeTicks(t).Ok? {
      assert TicksLayout[2] == feeGrowthOutside0X128 && TicksLayout[3] == feeGrowthOutside1X128;
    }
  }

  // ---------------------------------------------------------------------
  // Decimal conversion of named fields.

  /** Converts the `fields0` entries with the decimals of token0 and the
      `fields1` entries with those of token1; every other entry is left as
      it is. */
  function ScaleFields(m: Dict, fields0: set<string>, fields1: set<string>,
                       decimals0: nat, decimals1: nat): (r: Dict)
    requires fields0 <= m.Keys && fields1 <= m.Keys && fields0 !! fields1
    ensures r.Keys == m.Keys
    ensures forall k :: k in fields0 ==> r[k].Dec? && Value(r[k]) * (Pow10(decimals0) as real) == Value(m[k])
    ensures forall k :: k in fields1 ==> r[k].Dec? && Value(r[k]) * (Pow10(decimals1) as real) == Value(m[k])
    ensures forall k :: k in m && k !in fields0 && k !in fields1 ==> r[k] == m[k]
  {
    map k | k in m ::
      if k in fields0 then ToDecimal(m[k], decimals0)
      else if k in fields1 then ToDecimal(m[k], decimals1)
      else m[k]
  }

  /** `_get_qtty_depoloyed_todecimal`: the token0 quantity and owed fees in
      token0 units, the token1 ones in token1 units. */
  function DeployedToDecimal(result: Dict, decimals0: nat, decimals1: nat): (r: Dict)
    requires DeployedKeys <= result.Keys
    ensures r.Keys == result.Keys
    ensures r[Qtty0] == ToDecimal(result[Qtty0], decimals0)
    ensures r[FeesOwed0] == ToDecimal(result[FeesOwed0], decimals0)
    ensures r[Qtty1] == ToDecimal(result[Qtty1], decimals1)
    ensures r[FeesOwed1] == ToDecimal(result[FeesOwed1], decimals1)
    ensures forall k :: k in result && k !in DeployedKeys ==> r[k] == result[k]
  {
    ResultKeysDistinct();
    ScaleFields(result, {Qtty0, FeesOwed0}, {Qtty1, FeesOwed1}, decimals0, decimals1)
  }

  /** The inline conversion at the end of `get_fees_uncollected`. */
  function UncollectedToDecimal(result: Dict, decimals0: nat, decimals1: nat): (r: Dict)
    requires UncollectedKeys <= result.Keys
    ensures r.Keys == result.Keys
    ensures r[Qtty0] == ToDecimal(result[Qtty0], decimals0)
    ensures r[Qtty1] == ToDecimal(result[Qtty1], decimals1)
    ensures forall k :: k in result && k !in UncollectedKeys ==> r[k] == result[k]
  {
    ResultKeysDistinct();
    ScaleFields(result, {Qtty0}, {Qtty1}, decimals0, decimals1)
  }

  // ---------------------------------------------------------------------
  // Deployed quantities of one range.

  /** The token amounts the liquidity of `pos` stands for between the two
      boundary ticks, at the pool's current square-root price. */
  function DeployedAmounts(f: Formulas, pos: Record, state: Record,
                           tickUpper: int, tickLower: int): (int, int)
    requires IsPosition(pos) && IsPoolState(state)
  {
    f.amountsForLiquidity(state[sqrtPriceX96], f.sqrtRatioAtTick(tickLower),
                          f.sqrtRatioAtTick(tickUpper), pos[liquidity])
  }

  /** `get_qtty_depoloyed` of a pool: the deployed amounts and the fees the
      pool already owes the position, raw or in decimal units. */
  function QttyDeployed(f: Formulas, pos: Record, state: Record,
                        tickUpper: int, tickLower: int,
                        inDecimal: bool, decimals0: nat, decimals1: nat): (r: Dict)
    requires IsPosition(pos) && IsPoolState(state)
    ensures r.Keys == DeployedKeys
    ensures !inDecimal ==> forall k :: k in r ==> r[k].Int?
    ensures !inDecimal ==> r[FeesOwed0] == Int(pos[tokensOwed0]) && r[FeesOwed1] == Int(pos[tokensOwed1])
    ensures !inDecimal ==>
      (r[Qtty0].i, r[Qtty1].i) == DeployedAmounts(f, pos, state, tickUpper, tickLower)
    ensures inDecimal ==> forall k :: k in r ==> r[k].Dec?
  {
    var (amount0, amount1) := DeployedAmounts(f, pos, state, tickUpper, tickLower);
    var result := map[Qtty0 := Int(amount0), Qtty1 := Int(amount1),
                      FeesOwed0 := Int(pos[tokensOwed0]), FeesOwed1 := Int(pos[tokensOwed1])];
    if inDecimal then DeployedToDecimal(result, decimals0, decimals1) else result
  }

  /** The decimal result is the raw result with every token0 field divided
      by `10^decimals0` and every token1 field by `10^decimals1`. */
  lemma QttyDeployedDecimalIsScaledRaw(f: Formulas, pos: Record, state: Record,
                                        tickUpper: int, tickLower: int,
                                        decimals0: nat, decimals1: nat)
    requires IsPosition(pos) && IsPoolState(state)
    ensures QttyDeployed(f, pos, state, tickUpper, tickLower, true, decimals0, decimals1)
         == DeployedToDecimal(QttyDeployed(f, pos, state, tickUpper, tickLower, false, decimals0, decimals1),
                              decimals0, decimals1)
  {
  }

  /** The owed fees are copied from the position: they do not depend on the
      formula library nor on the pool's price. */
  lemma FeesOwedIndependentOfFormulas(f: Formulas, g: Formulas, pos: Record,
                                      state: Record, state': Record,
                                      tickUpper: int, tickLower: int,
                                      inDecimal: bool, decimals0: nat, decimals1: nat)
    requires IsPosition(pos) && IsPoolState(state) && IsPoolState(state')
    ensures var a := QttyDeployed(f, pos, state, tickUpper, tickLower, inDecimal, decimals0, decimals1);
            var b := QttyDeployed(g, pos, state', tickUpper, tickLower, inDecimal, decimals0, decimals1);
            a[FeesOwed0] == b[FeesOwed0] && a[FeesOwed1] == b[FeesOwed1]
  {
  }

  /** The pool's current tick is read but not used: two states that agree on
      the price give the same result. */
  lemma QttyDeployedIgnoresTick(f: Formulas, pos: Record, state: Record, t: int,
                                tickUpper: int, tickLower: int,
                                inDecimal: bool, decimals0: nat, decimals1: nat)
    requires IsPosition(pos) && IsPoolState(state)
    ensures QttyDeployed(f, pos, state[tick := t], tickUpper, tickLower, inDecimal, decimals0, decimals1)
         == QttyDeployed(f, pos, state, tickUpper, tickLower, inDecimal, decimals0, decimals1)
  {
  }

  // ---------------------------------------------------------------------
  // Uncollected fees of one range.

  /** The arguments `get_fees_uncollected` passes to the fee formula: the
      pool's global growth, its current tick, the range, the outside growth of
      the lower and of the upper tick, and the position's liquidity and
      last inside-growth checkpoints. */
  function UncollectedInputs(pos: Record, state: Record, lowerTick: Record, upperTick: Record,
                             feeGrowthGlobal0: int, feeGrowthGlobal1: int,
                             tickUpper: int, tickLower: int): (x: FeeGrowthInputs)
    requires IsPosition(pos) && tick in state && IsTick(lowerTick) && IsTick(upperTick)
    ensures x.feeGrowthGlobal0 == feeGrowthGlobal0 && x.feeGrowthGlobal1 == feeGrowthGlobal1
    ensures x.tickCurrent == state[tick]
    ensures x.tickLower == tickLower && x.tickUpper == tickUpper
    ensures x.feeGrowthOutside0Lower == lowerTick[feeGrowthOutside0X128]
    ensures x.feeGrowthOutside1Lower == lowerTick[feeGrowthOutside1X128]
    ensures x.feeGrowthOutside0Upper == upperTick[feeGrowthOutside0X128]
    ensures x.feeGrowthOutside1Upper == upperTick[feeGrowthOutside1X128]
    ensures x.liquidity == pos[liquidity]
    ensures x.feeGrowthInsideLast0 == pos[feeGrowthInside0LastX128]
    ensures x.feeGrowthInsideLast1 == pos[feeGrowthInside1LastX128]
  {
    FeeGrowthInputs(
      feeGrowthGlobal0, feeGrowthGlobal1,
      state[tick], tickLower, tickUpper,
      lowerTick[feeGrowthOutside0X128], lowerTick[feeGrowthOutside1X128],
      upperTick[feeGrowthOutside0X128], upperTick[feeGrowthOutside1X128],
      pos[liquidity],
      pos[feeGrowthInside0LastX128], pos[feeGrowthInside1LastX128])
  }

  /** `get_fees_uncollected` of a pool: the fees accrued to the position but
      not yet credited to it; owed fees are reported by `QttyDeployed`
      instead. */
  function FeesUncollected(f: Formulas, pos: Record, state: Record,
                           lowerTick: Record, upperTick: Record,
                           feeGrowthGlobal0: int, feeGrowthGlobal1: int,
                           tickUpper: int, tickLower: int,
                           inDecimal: bool, decimals0: nat, decimals1: nat): (r: Dict)
    requires IsPosition(pos) && tick in state && IsTick(lowerTick) && IsTick(upperTick)
    ensures r.Keys == UncollectedKeys
    ensures !inDecimal ==> forall k :: k in r ==> r[k].Int?
    ensures !inDecimal ==>
      (r[Qtty0].i, r[Qtty1].i)
        == f.uncollectedFees(UncollectedInputs(pos, state, lowerTick, upperTick,
                                               feeGrowthGlobal0, feeGrowthGlobal1,
                                               tickUpper, tickLower))
    ensures inDecimal ==> forall k :: k in r ==> r[k].Dec?
  {
    var (fees0, fees1) := f.uncollectedFees(UncollectedInputs(pos, state, lowerTick, upperTick,
                                                              feeGrowthGlobal0, feeGrowthGlobal1,
                                                              tickUpper, tickLower));
    var result := map[Qtty0 := Int(fees0), Qtty1 := Int(fees1)];
    if inDecimal then UncollectedToDecimal(result, decimals0, decimals1) else result
  }

  /** The decimal result is the raw result scaled per token. */
  lemma FeesUncollectedDecimalIsScaledRaw(f: Formulas, pos: Record, state: Record,
                                          lowerTick: Record, upperTick: Record,
                                          feeGrowthGlobal0: int, feeGrowthGlobal1: int,
                                          tickUpper: int, tickLower: int,
                                          decimals0: nat, decimals1: nat)
    requires IsPosition(pos) && tick in state && IsTick(lowerTick) && IsTick(upperTick)
    ensures FeesUncollected(f, pos, state, lowerTick, upperTick, feeGrowthGlobal0, feeGrowthGlobal1,
                            tickUpper, tickLower, true, decimals0, decimals1)
         == UncollectedToDecimal(FeesUncollected(f, pos, state, lowerTick, upperTick,
                                                 feeGrowthGlobal0, feeGrowthGlobal1,
                                                 tickUpper, tickLower, false, decimals0, decimals1),
                                 decimals0, decimals1)
  {
  }

  /** The owed amounts of the position do not enter the uncollected fees, so
      the two are never counted twice. */
  lemma FeesUncollectedIgnoresOwed(f: Formulas, pos: Record, state: Record,
                                   lowerTick: Record, upperTick: Record,
                                   feeGrowthGlobal0: int, feeGrowthGlobal1: int,
                                   tickUpper: int, tickLower: int,
                                   inDecimal: bool, decimals0: nat, decimals1: nat,
                                   owed0: int, owed1: int)
    requires IsPosition(pos) && tick in state && IsTick(lowerTick) && IsTick(upperTick)
    ensures FeesUncollected(f, pos[tokensOwed0 := owed0][tokensOwed1 := owed1], state, lowerTick, upperTick,
                            feeGrowthGlobal0, feeGrowthGlobal1, tickUpper, tickLower,
                            inDecimal, decimals0, decimals1)
         == FeesUncollected(f, pos, state, lowerTick, upperTick,
                            feeGrowthGlobal0, feeGrowthGlobal1, tickUpper, tickLower,
                            inDecimal, decimals0, decimals1)
  {
  }
}
