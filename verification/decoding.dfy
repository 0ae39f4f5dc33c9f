/** Unpacking of raw contract-call tuples into named records.
    Each getter of the pool and hypervisor bindings subscripts the tuple the
    RPC layer returns and stores element `i` under the `i`-th field name of a
    fixed layout. A layout is therefore all that distinguishes one getter
    from another, and the Uniswap-v3 and Algebra pools differ only in their
    layouts. */
module Decoding {
  import opened Wrappers

  /** The two pool families whose getters are modelled. */
  datatype PoolKind = UniswapV3 | AlgebraV3

  /** The dictionary keys the getters produce, spelled as in the source. */
  datatype Field =
    // positions
    | liquidity | lastLiquidityAddTimestamp
    | feeGrowthInside0LastX128 | feeGrowthInside1LastX128
    | tokensOwed0 | tokensOwed1
    // slot0 / globalState
    | sqrtPriceX96 | tick
    | observationIndex | observationCardinality | observationCardinalityNext | feeProtocol
    | fee | timepointIndex | communityFeeToken0 | communityFeeToken1
    | unlocked
    // ticks
    | liquidityGross | liquidityNet
    | feeGrowthOutside0X128 | feeGrowthOutside1X128
    | tickCumulativeOutside | secondsPerLiquidityOutsideX128 | secondsOutside
    | initialized
    // hypervisor getters
    | amount0 | amount1 | total0 | total1

  /** A decoded tuple: field to value. Booleans of the ABI (`initialized`,
      `unlocked`) are carried as 0/1, as Python's `bool` is an `int`. */
  type Record = map<Field, int>

  /** The fields of a getter, in tuple order. */
  type Layout = seq<Field>

  predicate Distinct(layout: Layout) {
    forall i, j :: 0 <= i < j < |layout| ==> layout[i] != layout[j]
  }

  function Names(layout: Layout): set<Field> {
    set f | f in layout
  }

  // ---------------------------------------------------------------------
  // Layouts, one per getter.

  /** `positions(key)` of a pool. Algebra inserts
      `lastLiquidityAddTimestamp` at index 1. */
  function PositionsLayout(kind: PoolKind): Layout {
    match kind
    case UniswapV3 =>
      [liquidity, feeGrowthInside0LastX128, feeGrowthInside1LastX128,
       tokensOwed0, tokensOwed1]
    case AlgebraV3 =>
      [liquidity, lastLiquidityAddTimestamp, feeGrowthInside0LastX128,
       feeGrowthInside1LastX128, tokensOwed0, tokensOwed1]
  }

  /** `slot0()` of a Uniswap-v3 pool, `globalState()` of an Algebra pool. */
  function PoolStateLayout(kind: PoolKind): Layout {
    match kind
    case UniswapV3 =>
      [sqrtPriceX96, tick, observationIndex, observationCardinality,
       observationCardinalityNext, feeProtocol, unlocked]
    case AlgebraV3 =>
      [sqrtPriceX96, tick, fee, timepointIndex, communityFeeToken0,
       communityFeeToken1, unlocked]
  }

  /** `ticks(tick)`: both pool families use the same names. */
  const TicksLayout: Layout :=
    [liquidityGross, liquidityNet, feeGrowthOutside0X128,
     feeGrowthOutside1X128, tickCumulativeOutside,
     secondsPerLiquidityOutsideX128, secondsOutside, initialized]

  /** `getBasePosition()` and `getLimitPosition()` of a hypervisor. */
  const HypervisorPositionLayout: Layout := [liquidity, amount0, amount1]

  /** `getTotalAmounts()` of a hypervisor. */
  const TotalAmountsLayout: Layout := [total0, total1]

  lemma PositionsLayoutDistinct(kind: PoolKind)
    ensures Distinct(PositionsLayout(kind))
  {
  }

  lemma PoolStateLayoutDistinct(kind: PoolKind)
    ensures Distinct(PoolStateLayout(kind))
  {
  }

  lemma GetterLayoutsDistinct()
    ensures Distinct(TicksLayout)
    ensures Distinct(HypervisorPositionLayout)
    ensures Distinct(TotalAmountsLayout)
  {
  }

  // ---------------------------------------------------------------------
  // Decoding and its inverse.

  /** Stores `t[i]` under `layout[i]` for every field of the layout. */
  function Fields(layout: Layout, t: seq<int>): (r: Record)
    requires Distinct(layout)
    requires |t| >= |layout|
    ensures r.Keys == Names(layout)
    ensures forall i :: 0 <= i < |layout| ==> r[layout[i]] == t[i]
  {
    if |layout| == 0 then map[]
    else
      var n := |layout| - 1;
      Fields(layout[..n], t)[layout[n] := t[n]]
  }

  /** Unpacks a call result under a layout. Subscripting a tuple shorter
      than the layout raises `IndexError`; extra trailing elements are
      ignored. */
  function Decode(layout: Layout, t: seq<int>): (r: Result<Record>)
    requires Distinct(layout)
    ensures r.Err? <==> |t| < |layout|
    ensures r.Err? ==> r.error == IndexError
    ensures r.Ok? ==> r.value.Keys == Names(layout)
    ensures r.Ok? ==> forall i :: 0 <= i < |layout| ==> r.value[layout[i]] == t[i]
  {
    if |t| < |layout| then Err(IndexError) else Ok(Fields(layout, t))
  }

  /** Packs a record back into tuple order. */
  function Encode(layout: Layout, r: Record): (t: seq<int>)
    requires Names(layout) <= r.Keys
    ensures |t| == |layout|
  {
    seq(|layout|, i requires 0 <= i < |layout| => r[layout[i]])
  }

  /** Decoding inverts encoding: no field is lost or moved. */
  lemma DecodeEncode(layout: Layout, r: Record)
    requires Distinct(layout)
    requires r.Keys == Names(layout)
    ensures Decode(layout, Encode(layout, r)) == Ok(r)
  {
    var t := Encode(layout, r);
    var d := Decode(layout, t).value;
    forall k | k in r
      ensures d[k] == r[k]
    {
      var i :| 0 <= i < |layout| && layout[i] == k;
      assert t[i] == r[k];
    }
    assert d.Keys == r.Keys;
    assert d == r;
  }

  /** Encoding inverts decoding up to the ignored tail of the tuple. */
  lemma EncodeDecode(layout: Layout, t: seq<int>)
    requires Distinct(layout)
    requires Decode(layout, t).Ok?
    ensures Encode(layout, Decode(layout, t).value) == t[..|layout|]
  {
  }

  // ---------------------------------------------------------------------
  // The getters.

  function DecodePositions(kind: PoolKind, t: seq<int>): (r: Result<Record>)
    ensures r.Err? <==> |t| < |PositionsLayout(kind)|
    ensures r.Ok? ==> r.value.Keys == Names(PositionsLayout(kind))
    ensures r.Ok? ==> forall i :: 0 <= i < |PositionsLayout(kind)| ==> r.value[PositionsLayout(kind)[i]] == t[i]
  {
    PositionsLayoutDistinct(kind);
    Decode(PositionsLayout(kind), t)
  }

  function DecodePoolState(kind: PoolKind, t: seq<int>): (r: Result<Record>)
    ensures r.Err? <==> |t| < 7
    ensures r.Ok? ==> r.value.Keys == Names(PoolStateLayout(kind))
    ensures r.Ok? ==> forall i :: 0 <= i < 7 ==> r.value[PoolStateLayout(kind)[i]] == t[i]
  {
    PoolStateLayoutDistinct(kind);
    Decode(PoolStateLayout(kind), t)
  }

  function DecodeTicks(t: seq<int>): (r: Result<Record>)
    ensures r.Err? <==> |t| < 8
    ensures r.Ok? ==> r.value.Keys == Names(TicksLayout)
    ensures r.Ok? ==> forall i :: 0 <= i < 8 ==> r.value[TicksLayout[i]] == t[i]
  {
    GetterLayoutsDistinct();
    Decode(TicksLayout, t)
  }

  function DecodeHypervisorPosition(t: seq<int>): (r: Result<Record>)
    ensures r.Err? <==> |t| < 3
    ensures r.Ok? ==> r.value.Keys == {liquidity, amount0, amount1}
  {
    GetterLayoutsDistinct();
    Decode(HypervisorPositionLayout, t)
  }

  function DecodeTotalAmounts(t: seq<int>): (r: Result<Record>)
    ensures r.Err? <==> |t| < 2
    ensures r.Ok? ==> r.value.Keys == {total0, total1}
  {
    GetterLayoutsDistinct();
    Decode(TotalAmountsLayout, t)
  }

  // ---------------------------------------------------------------------
  // Properties of the concrete layouts.

  /** Uniswap `positions`: indices 0..4 are liquidity, the two fee-growth
      checkpoints and the two owed amounts. */
  lemma UniswapPositionsFields(t: seq<int>)
    requires |t| >= 5
    ensures DecodePositions(UniswapV3, t)
         == Ok(map[liquidity := t[0], feeGrowthInside0LastX128 := t[1],
                   feeGrowthInside1LastX128 := t[2], tokensOwed0 := t[3],
                   tokensOwed1 := t[4]])
  {
    UniswapPositionsEntries(t);
    UniswapRecord(DecodePositions(UniswapV3, t).value, t[0], t[1], t[2], t[3], t[4]);
  }

  /** A record with exactly the Uniswap position fields is the display of
      its entries. */
  lemma UniswapRecord(r: Record, l: int, g0: int, g1: int, o0: int, o1: int)
    requires r.Keys == {liquidity, feeGrowthInside0LastX128, feeGrowthInside1LastX128,
                        tokensOwed0, tokensOwed1}
    requires r[liquidity] == l && r[feeGrowthInside0LastX128] == g0
    requires r[feeGrowthInside1LastX128] == g1 && r[tokensOwed0] == o0 && r[tokensOwed1] == o1
    ensures r == map[liquidity := l, feeGrowthInside0LastX128 := g0,
                     feeGrowthInside1LastX128 := g1, tokensOwed0 := o0, tokensOwed1 := o1]
  {
    var e := map[liquidity := l, feeGrowthInside0LastX128 := g0,
                 feeGrowthInside1LastX128 := g1, tokensOwed0 := o0, tokensOwed1 := o1];
    assert r.Keys == e.Keys;
  }

  lemma UniswapPositionsEntries(t: seq<int>)
    requires |t| >= 5
    ensures DecodePositions(UniswapV3, t).Ok?
    ensures var r := DecodePositions(UniswapV3, t).value;
      && r.Keys == {liquidity, feeGrowthInside0LastX128, feeGrowthInside1LastX128,
                    tokensOwed0, tokensOwed1}
      && r[liquidity] == t[0] && r[feeGrowthInside0LastX128] == t[1]
      && r[feeGrowthInside1LastX128] == t[2] && r[tokensOwed0] == t[3]
      && r[tokensOwed1] == t[4]
  {
    var l := PositionsLayout(UniswapV3);
    var r := DecodePositions(UniswapV3, t).value;
    assert r[l[0]] == t[0] && r[l[1]] == t[1] && r[l[2]] == t[2];
    assert r[l[3]] == t[3] && r[l[4]] == t[4];
  }

  /** Algebra `positions`: `lastLiquidityAddTimestamp` is index 1 and every
      later field moves up by one. */
  lemma AlgebraPositionsFields(t: seq<int>)
    requires |t| >= 6
    ensures DecodePositions(AlgebraV3, t)
         == Ok(map[liquidity := t[0], lastLiquidityAddTimestamp := t[1],
                   feeGrowthInside0LastX128 := t[2], feeGrowthInside1LastX128 := t[3],
                   tokensOwed0 := t[4], tokensOwed1 := t[5]])
  {
    AlgebraPositionsEntries(t);
    AlgebraRecord(DecodePositions(AlgebraV3, t).value, t[0], t[1], t[2], t[3], t[4], t[5]);
  }

  /** A record with exactly the Algebra position fields is the display of
      its entries. */
  lemma AlgebraRecord(r: Record, l: int, ts: int, g0: int, g1: int, o0: int, o1: int)
    requires r.Keys == {liquidity, lastLiquidityAddTimestamp, feeGrowthInside0LastX128,
                        feeGrowthInside1LastX128, tokensOwed0, tokensOwed1}
    requires r[liquidity] == l && r[lastLiquidityAddTimestamp] == ts
    requires r[feeGrowthInside0LastX128] == g0 && r[feeGrowthInside1LastX128] == g1
    requires r[tokensOwed0] == o0 && r[tokensOwed1] == o1
    ensures r == map[liquidity := l, lastLiquidityAddTimestamp := ts,
                     feeGrowthInside0LastX128 := g0, feeGrowthInside1LastX128 := g1,
                     tokensOwed0 := o0, tokensOwed1 := o1]
  {
    var e := map[liquidity := l, lastLiquidityAddTimestamp := ts,
                 feeGrowthInside0LastX128 := g0, feeGrowthInside1LastX128 := g1,
                 tokensOwed0 := o0, tokensOwed1 := o1];
    assert r.Keys == e.Keys;
  }

  lemma AlgebraPositionsEntries(t: seq<int>)
    requires |t| >= 6
    ensures DecodePositions(AlgebraV3, t).Ok?
    ensures var r := DecodePositions(AlgebraV3, t).value;
      && r.Keys == {liquidity, lastLiquidityAddTimestamp, feeGrowthInside0LastX128,
                    feeGrowthInside1LastX128, tokensOwed0, tokensOwed1}
      && r[liquidity] == t[0] && r[lastLiquidityAddTimestamp] == t[1]
      && r[feeGrowthInside0LastX128] == t[2] && r[feeGrowthInside1LastX128] == t[3]
      && r[tokensOwed0] == t[4] && r[tokensOwed1] == t[5]
  {
    var l := PositionsLayout(AlgebraV3);
    var r := DecodePositions(AlgebraV3, t).value;
    assert r[l[0]] == t[0] && r[l[1]] == t[1] && r[l[2]] == t[2];
    assert r[l[3]] == t[3] && r[l[4]] == t[4] && r[l[5]] == t[5];
  }

  /** Both position layouts yield the same common fields: dropping index 1
      of an Algebra tuple and decoding it as Uniswap gives the Algebra record
      without `lastLiquidityAddTimestamp`. */
  lemma AlgebraPositionsShift(t: seq<int>)
    requires |t| >= 6
    ensures DecodePositions(AlgebraV3, t).Ok?
    ensures DecodePositions(AlgebraV3, t).value - {lastLiquidityAddTimestamp}
         == DecodePositions(UniswapV3, [t[0]] + t[2..]).value
  {
    var u := [t[0]] + t[2..];
    assert u[0] == t[0] && u[1] == t[2] && u[2] == t[3] && u[3] == t[4] && u[4] == t[5];
    AlgebraPositionsFields(t);
    UniswapPositionsFields(u);
    DropTimestamp(t[0], t[1], t[2], t[3], t[4], t[5]);
  }

  lemma DropTimestamp(l: int, ts: int, g0: int, g1: int, o0: int, o1: int)
    ensures map[liquidity := l, lastLiquidityAddTimestamp := ts,
                feeGrowthInside0LastX128 := g0, feeGrowthInside1LastX128 := g1,
                tokensOwed0 := o0, tokensOwed1 := o1] - {lastLiquidityAddTimestamp}
         == map[liquidity := l, feeGrowthInside0LastX128 := g0,
                feeGrowthInside1LastX128 := g1, tokensOwed0 := o0, tokensOwed1 := o1]
  {
    var a := map[liquidity := l, lastLiquidityAddTimestamp := ts,
                 feeGrowthInside0LastX128 := g0, feeGrowthInside1LastX128 := g1,
                 tokensOwed0 := o0, tokensOwed1 := o1] - {lastLiquidityAddTimestamp};
    var b := map[liquidity := l, feeGrowthInside0LastX128 := g0,
                 feeGrowthInside1LastX128 := g1, tokensOwed0 := o0, tokensOwed1 := o1];
    assert a.Keys == b.Keys;
  }

  /** `slot0` and `globalState` agree on where the price and the tick are. */
  lemma PriceAndTickPositions(kind: PoolKind, t: seq<int>)
    requires |t| >= 7
    ensures DecodePoolState(kind, t).Ok?
    ensures DecodePoolState(kind, t).value[sqrtPriceX96] == t[0]
    ensures DecodePoolState(kind, t).value[tick] == t[1]
  {
    var l := PoolStateLayout(kind);
    assert l[0] == sqrtPriceX96 && l[1] == tick;
  }

  /** `ticks`: the two fee-growth-outside counters are indices 2 and 3,
      the initialised flag index 7. */
  lemma TicksFields(t: seq<int>)
    requires |t| >= 8
    ensures DecodeTicks(t).Ok?
    ensures DecodeTicks(t).value[feeGrowthOutside0X128] == t[2]
    ensures DecodeTicks(t).value[feeGrowthOutside1X128] == t[3]
    ensures DecodeTicks(t).value[initialized] == t[7]
  {
    assert TicksLayout[2] == feeGrowthOutside0X128 && TicksLayout[3] == feeGrowthOutside1X128
      && TicksLayout[7] == initialized;
  }

  /** Base/limit position and total amounts: 0 -> liquidity, 1 -> amount0,
      2 -> amount1; and 0 -> total0, 1 -> total1. */
  lemma HypervisorGettersFields(p: seq<int>, t: seq<int>)
    requires |p| >= 3 && |t| >= 2
    ensures DecodeHypervisorPosition(p).Ok? && DecodeTotalAmounts(t).Ok?
    ensures var r := DecodeHypervisorPosition(p).value;
      r[liquidity] == p[0] && r[amount0] == p[1] && r[amount1] == p[2]
    ensures var r := DecodeTotalAmounts(t).value;
      r[total0] == t[0] && r[total1] == t[1]
  {
    assert HypervisorPositionLayout[0] == liquidity && HypervisorPositionLayout[1] == amount0
      && HypervisorPositionLayout[2] == amount1;
    assert TotalAmountsLayout[0] == total0 && TotalAmountsLayout[1] == total1;
  }
}
