/** The hypervisor-level views: a Gamma hypervisor holds two positions in
    one pool, a "base" range and a "limit" range, plus idle ("parked")
    token balances. Its deployed quantities and uncollected fees merge the
    two per-range results; its TVL adds deployed, owed and parked amounts. */
module Hypervisor {
  import opened Wrappers
  import opened Numbers
  import opened Text
  import opened Decoding
  import opened PoolView

  /** One range of the hypervisor with the pool data fetched for it. */
  datatype RangeSnapshot = RangeSnapshot(
    tickLower: int, tickUpper: int,
    position: Record,     // `positions` of the hypervisor's key for this range
    lowerTick: Record,    // `ticks(tickLower)`
    upperTick: Record)    // `ticks(tickUpper)`

  /** Everything the hypervisor views read, fetched at one block. */
  datatype HypervisorSnapshot = HypervisorSnapshot(
    poolState: Record,                           // `slot0` / `globalState`
    feeGrowthGlobal0: int, feeGrowthGlobal1: int,
    decimals0: nat, decimals1: nat,              // of token0 and token1
    base: RangeSnapshot, limit: RangeSnapshot,
    parked0: int, parked1: int)                  // `balanceOf(hypervisor)` of each token

  predicate RangeReadable(r: RangeSnapshot) {
    IsPosition(r.position) && IsTick(r.lowerTick) && IsTick(r.upperTick)
  }

  predicate Readable(h: HypervisorSnapshot) {
    IsPoolState(h.poolState) && RangeReadable(h.base) && RangeReadable(h.limit)
  }

  // ---------------------------------------------------------------------
  // Merging the base and limit results.

  /** `{k: base.get(k, 0) + limit.get(k, 0) for k in set(base) & set(limit)}`:
      the keys present in both results, each mapped to the sum of its two
      values. */
  function MergeShared(base: Dict, limit: Dict): (r: Dict)
    ensures r.Keys == base.Keys * limit.Keys
    ensures forall k :: k in r ==> Value(r[k]) == Value(base[k]) + Value(limit[k])
    ensures forall k :: k in r ==> (r[k].Int? <==> base[k].Int? && limit[k].Int?)
  {
    map k | k in base.Keys * limit.Keys :: Add(base[k], limit[k])
  }

  /** Merging commutes with converting to decimal: converting the two range
      results and then summing equals summing the raw results and then
      converting. */
  lemma MergeScaleCommute(base: Dict, limit: Dict, fields0: set<string>, fields1: set<string>,
                          decimals0: nat, decimals1: nat)
    requires base.Keys == limit.Keys
    requires fields0 <= base.Keys && fields1 <= base.Keys && fields0 !! fields1
    requires base.Keys == fields0 + fields1
    ensures MergeShared(ScaleFields(base, fields0, fields1, decimals0, decimals1),
                        ScaleFields(limit, fields0, fields1, decimals0, decimals1))
         == ScaleFields(MergeShared(base, limit), fields0, fields1, decimals0, decimals1)
  {
    var a := MergeShared(ScaleFields(base, fields0, fields1, decimals0, decimals1),
                         ScaleFields(limit, fields0, fields1, decimals0, decimals1));
    var b := ScaleFields(MergeShared(base, limit), fields0, fields1, decimals0, decimals1);
    forall k | k in a
      ensures a[k] == b[k]
    {
      var d := if k in fields0 then decimals0 else decimals1;
      ToDecimalOfAdd(base[k], limit[k], d);
    }
  }

  // ---------------------------------------------------------------------
  // Deployed quantities and uncollected fees.

  /** `pool.get_qtty_depoloyed` for one range: the range's own position and
      tick bounds, at the pool's current price. */
  function RangeDeployed(f: Formulas, h: HypervisorSnapshot, r: RangeSnapshot, inDecimal: bool): (d: Dict)
    requires IsPoolState(h.poolState) && RangeReadable(r)
    ensures d.Keys == DeployedKeys
    ensures forall k :: k in d ==> (d[k].Dec? <==> inDecimal)
    ensures !inDecimal ==>
      (d[Qtty0].i, d[Qtty1].i) == DeployedAmounts(f, r.position, h.poolState, r.tickUpper, r.tickLower)
    ensures !inDecimal ==>
      d[FeesOwed0] == Int(r.position[tokensOwed0]) && d[FeesOwed1] == Int(r.position[tokensOwed1])
  {
    QttyDeployed(f, r.position, h.poolState, r.tickUpper, r.tickLower,
                 inDecimal, h.decimals0, h.decimals1)
  }

  /** `get_qtty_depoloyed` of a hypervisor. */
  function Deployed(f: Formulas, h: HypervisorSnapshot, inDecimal: bool): (r: Dict)
    requires Readable(h)
    ensures r.Keys == DeployedKeys
    ensures !inDecimal ==> forall k :: k in r ==> r[k].Int?
    ensures inDecimal ==> forall k :: k in r ==> r[k].Dec?
  {
    MergeShared(RangeDeployed(f, h, h.base, inDecimal), RangeDeployed(f, h, h.limit, inDecimal))
  }

  /** The raw hypervisor result holds, per key, the base amount plus the limit
      amount; the owed fees are the sum of the two positions' `tokensOwed`. */
  lemma DeployedSumsRanges(f: Formulas, h: HypervisorSnapshot)
    requires Readable(h)
    ensures var r := Deployed(f, h, false);
      var (b0, b1) := DeployedAmounts(f, h.base.position, h.poolState, h.base.tickUpper, h.base.tickLower);
      var (l0, l1) := DeployedAmounts(f, h.limit.position, h.poolState, h.limit.tickUpper, h.limit.tickLower);
      && r[Qtty0] == Int(b0 + l0) && r[Qtty1] == Int(b1 + l1)
      && r[FeesOwed0] == Int(h.base.position[tokensOwed0] + h.limit.position[tokensOwed0])
      && r[FeesOwed1] == Int(h.base.position[tokensOwed1] + h.limit.position[tokensOwed1])
  {
  }

  /** Asking for decimals per range and summing gives the same result as
      summing raw amounts and converting once. */
  lemma DeployedDecimalIsScaledRaw(f: Formulas, h: HypervisorSnapshot)
    requires Readable(h)
    ensures Deployed(f, h, true) == DeployedToDecimal(Deployed(f, h, false), h.decimals0, h.decimals1)
  {
    var b := RangeDeployed(f, h, h.base, false);
    var l := RangeDeployed(f, h, h.limit, false);
    ResultKeysDistinct();
    MergeScaleCommute(b, l, {Qtty0, FeesOwed0}, {Qtty1, FeesOwed1}, h.decimals0, h.decimals1);
  }

  /** `pool.get_fees_uncollected` for one range: the range's own position,
      boundary ticks and tick bounds, with the pool's global fee growth. */
  function RangeUncollected(f: Formulas, h: HypervisorSnapshot, r: RangeSnapshot, inDecimal: bool): (d: Dict)
    requires IsPoolState(h.poolState) && RangeReadable(r)
    ensures d.Keys == UncollectedKeys
    ensures forall k :: k in d ==> (d[k].Dec? <==> inDecimal)
    ensures !inDecimal ==>
      var x := UncollectedInputs(r.position, h.poolState, r.lowerTick, r.upperTick,
                                 h.feeGrowthGlobal0, h.feeGrowthGlobal1, r.tickUpper, r.tickLower);
      && x.tickLower == r.tickLower && x.tickUpper == r.tickUpper
      && x.feeGrowthGlobal0 == h.feeGrowthGlobal0 && x.feeGrowthGlobal1 == h.feeGrowthGlobal1
      && (d[Qtty0].i, d[Qtty1].i) == f.uncollectedFees(x)
  {
    FeesUncollected(f, r.position, h.poolState, r.lowerTick, r.upperTick,
                    h.feeGrowthGlobal0, h.feeGrowthGlobal1, r.tickUpper, r.tickLower,
                    inDecimal, h.decimals0, h.decimals1)
  }

  /** `get_fees_uncollected` of a hypervisor. */
  function Uncollected(f: Formulas, h: HypervisorSnapshot, inDecimal: bool): (r: Dict)
    requires Readable(h)
    ensures r.Keys == UncollectedKeys
    ensures !inDecimal ==> forall k :: k in r ==> r[k].Int?
    ensures inDecimal ==> forall k :: k in r ==> r[k].Dec?
  {
    MergeShared(RangeUncollected(f, h, h.base, inDecimal), RangeUncollected(f, h, h.limit, inDecimal))
  }

  /** The raw hypervisor fees are the base fees plus the limit fees. */
  lemma UncollectedSumsRanges(f: Formulas, h: HypervisorSnapshot)
    requires Readable(h)
    ensures var r := Uncollected(f, h, false);
      var (b0, b1) := f.uncollectedFees(UncollectedInputs(h.base.position, h.poolState,
                        h.base.lowerTick, h.base.upperTick, h.feeGrowthGlobal0, h.feeGrowthGlobal1,
                        h.base.tickUpper, h.base.tickLower));
      var (l0, l1) := f.uncollectedFees(UncollectedInputs(h.limit.position, h.poolState,
                        h.limit.lowerTick, h.limit.upperTick, h.feeGrowthGlobal0, h.feeGrowthGlobal1,
                        h.limit.tickUpper, h.limit.tickLower));
      r[Qtty0] == Int(b0 + l0) && r[Qtty1] == Int(b1 + l1)
  {
  }

  lemma UncollectedDecimalIsScaledRaw(f: Formulas, h: HypervisorSnapshot)
    requires Readable(h)
    ensures Uncollected(f, h, true) == UncollectedToDecimal(Uncollected(f, h, false), h.decimals0, h.decimals1)
  {
    var b := RangeUncollected(f, h, h.base, false);
    var l := RangeUncollected(f, h, h.limit, false);
    ResultKeysDistinct();
    MergeScaleCommute(b, l, {Qtty0}, {Qtty1}, h.decimals0, h.decimals1);
  }

  // ---------------------------------------------------------------------
  // Total value locked.

  const Tvl0: string := "tvl_token0"
  const Tvl1: string := "tvl_token1"
  const Deployed0: string := "deployed_token0"
  const Deployed1: string := "deployed_token1"
  const Parked0: string := "parked_token0"
  const Parked1: string := "parked_token1"

  const TvlKeys: set<string> :=
    {Parked0, Parked1, Deployed0, Deployed1, FeesOwed0, FeesOwed1, Tvl0, Tvl1}

  datatype Token = Token0 | Token1

  /** Which token a result key is denominated in: a key mentioning "token0"
      is token0, otherwise one mentioning "token1" is token1. */
  function TokenOfKey(key: string): (r: Option<Token>)
    ensures r == Some(Token0) <==> Contains(key, "token0")
    ensures r == Some(Token1) <==> !Contains(key, "token0") && Contains(key, "token1")
    ensures r.None? <==> !Contains(key, "token0") && !Contains(key, "token1")
  {
    if Contains(key, "token0") then Some(Token0)
    else if Contains(key, "token1") then Some(Token1)
    else None
  }

  function DecimalsOf(t: Token, decimals0: nat, decimals1: nat): nat {
    match t
    case Token0 => decimals0
    case Token1 => decimals1
  }

  /** The conversion loop at the end of `get_tvl`: every value divided by
      `10^decimals` of the token its key names; a key naming neither token
      raises `ValueError`. */
  function ConvertByKey(m: Dict, decimals0: nat, decimals1: nat): (r: Result<Dict>)
    ensures r.Err? <==> exists k :: k in m && TokenOfKey(k).None?
    ensures r.Err? ==> r.error == ValueError
    ensures r.Ok? ==> r.value.Keys == m.Keys
    ensures r.Ok? ==> forall k :: k in m ==>
      r.value[k] == ToDecimal(m[k], DecimalsOf(TokenOfKey(k).value, decimals0, decimals1))
  {
    if exists k :: k in m && TokenOfKey(k).None? then Err(ValueError)
    else Ok(map k | k in m :: ToDecimal(m[k], DecimalsOf(TokenOfKey(k).value, decimals0, decimals1)))
  }

  /** The raw TVL breakdown: deployed and owed amounts from the raw merged
      deployed result, parked balances, and per token their sum. */
  function TvlRaw(f: Formulas, h: HypervisorSnapshot): (r: Dict)
    requires Readable(h)
    ensures r.Keys == TvlKeys
    ensures forall k :: k in r ==> r[k].Int?
  {
    var deployed := Deployed(f, h, false);
    var d0 := deployed[Qtty0].i;
    var d1 := deployed[Qtty1].i;
    var o0 := deployed[FeesOwed0].i;
    var o1 := deployed[FeesOwed1].i;
    map[Parked0 := Int(h.parked0), Parked1 := Int(h.parked1),
        Deployed0 := Int(d0), Deployed1 := Int(d1),
        FeesOwed0 := Int(o0), FeesOwed1 := Int(o1),
        Tvl0 := Int(d0 + o0 + h.parked0), Tvl1 := Int(d1 + o1 + h.parked1)]
  }

  /** `get_tvl` of a hypervisor. */
  function Tvl(f: Formulas, h: HypervisorSnapshot, inDecimal: bool): (r: Result<Dict>)
    requires Readable(h)
    ensures r.Ok?
    ensures r.value.Keys == TvlKeys
  {
    var raw := TvlRaw(f, h);
    TvlKeysAllNamed(raw);
    if inDecimal then ConvertByKey(raw, h.decimals0, h.decimals1) else Ok(raw)
  }

  /** No TVL key makes the decimal conversion raise. */
  lemma TvlKeysAllNamed(m: Dict)
    requires m.Keys == TvlKeys
    ensures !exists k :: k in m && TokenOfKey(k).None?
  {
    TvlKeysNamedByToken();
    forall k | k in m
      ensures TokenOfKey(k).Some?
    {
      assert k in TvlKeys;
    }
  }

  /** Every TVL key names exactly one token, the one its suffix says. */
  lemma TvlKeysNamedByToken()
    ensures TokenOfKey(Parked0) == Some(Token0) && TokenOfKey(Deployed0) == Some(Token0)
    ensures TokenOfKey(FeesOwed0) == Some(Token0) && TokenOfKey(Tvl0) == Some(Token0)
    ensures TokenOfKey(Parked1) == Some(Token1) && TokenOfKey(Deployed1) == Some(Token1)
    ensures TokenOfKey(FeesOwed1) == Some(Token1) && TokenOfKey(Tvl1) == Some(Token1)
  {
    Token0KeysNamed();
    Token1KeysNamed();
  }

  lemma Token0KeysNamed()
    ensures TokenOfKey(Parked0) == Some(Token0) && TokenOfKey(Deployed0) == Some(Token0)
    ensures TokenOfKey(FeesOwed0) == Some(Token0) && TokenOfKey(Tvl0) == Some(Token0)
  {
    Parked0Named();
    Deployed0Named();
    FeesOwed0Named();
    Tvl0Named();
  }

  lemma Parked0Named() ensures TokenOfKey(Parked0) == Some(Token0) { NamesToken0(Parked0, 7); }
  lemma Deployed0Named() ensures TokenOfKey(Deployed0) == Some(Token0) { NamesToken0(Deployed0, 9); }
  lemma FeesOwed0Named() ensures TokenOfKey(FeesOwed0) == Some(Token0) { NamesToken0(FeesOwed0, 10); }
  lemma Tvl0Named() ensures TokenOfKey(Tvl0) == Some(Token0) { NamesToken0(Tvl0, 4); }

  lemma Token1KeysNamed()
    ensures TokenOfKey(Parked1) == Some(Token1) && TokenOfKey(Deployed1) == Some(Token1)
    ensures TokenOfKey(FeesOwed1) == Some(Token1) && TokenOfKey(Tvl1) == Some(Token1)
  {
    Parked1Named();
    Deployed1Named();
    FeesOwed1Named();
    Tvl1Named();
  }

  lemma Parked1Named() ensures TokenOfKey(Parked1) == Some(Token1) { NamesToken1(Parked1, 7); }
  lemma Deployed1Named() ensures TokenOfKey(Deployed1) == Some(Token1) { NamesToken1(Deployed1, 9); }
  lemma FeesOwed1Named() ensures TokenOfKey(FeesOwed1) == Some(Token1) { NamesToken1(FeesOwed1, 10); }
  lemma Tvl1Named() ensures TokenOfKey(Tvl1) == Some(Token1) { NamesToken1(Tvl1, 4); }

  lemma NamesToken0(key: string, i: int)
    requires OccursAt(key, "token0", i)
    ensures TokenOfKey(key) == Some(Token0)
  {
    ContainsAt(key, "token0", i);
  }

  lemma NamesToken1(key: string, i: int)
    requires OccursAt(key, "token1", i)
    requires forall j :: 0 <= j < |key| ==> key[j] != '0'
    ensures TokenOfKey(key) == Some(Token1)
  {
    ContainsAt(key, "token1", i);
    NoZeroNoToken0(key);
  }

  /** "token0" ends in the digit 0, so a key without that digit cannot
      mention token0. */
  lemma NoZeroNoToken0(s: string)
    requires forall i :: 0 <= i < |s| ==> s[i] != '0'
    ensures !Contains(s, "token0")
  {
    var sub := "token0";
    forall i | 0 <= i <= |s| - |sub|
      ensures !OccursAt(s, sub, i)
    {
      assert s[i..i + |sub|][5] == s[i + 5] != sub[5];
    }
  }

  /** TVL per token is deployed plus owed plus parked, summed on raw
      integers, with deployed and owed taken from the raw (not decimal)
      hypervisor result. */
  lemma TvlIsSumOfParts(f: Formulas, h: HypervisorSnapshot)
    requires Readable(h)
    ensures var r := Tvl(f, h, false).value;
      var deployed := Deployed(f, h, false);
      && r[Deployed0] == deployed[Qtty0] && r[Deployed1] == deployed[Qtty1]
      && r[FeesOwed0] == deployed[FeesOwed0] && r[FeesOwed1] == deployed[FeesOwed1]
      && r[Parked0] == Int(h.parked0) && r[Parked1] == Int(h.parked1)
      && r[Tvl0].i == r[Deployed0].i + r[FeesOwed0].i + r[Parked0].i
      && r[Tvl1].i == r[Deployed1].i + r[FeesOwed1].i + r[Parked1].i
  {
  }

  /** In decimal units every TVL field is its raw value divided by the
      decimals of its token, so the per-token sum still holds. */
  lemma TvlDecimalIsScaledRaw(f: Formulas, h: HypervisorSnapshot)
    requires Readable(h)
    ensures var raw := Tvl(f, h, false).value;
      var r := Tvl(f, h, true).value;
      && (forall k :: k in {Parked0, Deployed0, FeesOwed0, Tvl0} ==> r[k] == ToDecimal(raw[k], h.decimals0))
      && (forall k :: k in {Parked1, Deployed1, FeesOwed1, Tvl1} ==> r[k] == ToDecimal(raw[k], h.decimals1))
      && Value(r[Tvl0]) == Value(r[Deployed0]) + Value(r[FeesOwed0]) + Value(r[Parked0])
      && Value(r[Tvl1]) == Value(r[Deployed1]) + Value(r[FeesOwed1]) + Value(r[Parked1])
  {
    TvlKeysNamedByToken();
    var raw := Tvl(f, h, false).value;
    assert raw[Tvl0] == Add(Add(raw[Deployed0], raw[FeesOwed0]), raw[Parked0]);
    assert raw[Tvl1] == Add(Add(raw[Deployed1], raw[FeesOwed1]), raw[Parked1]);
    ToDecimalOfAdd(raw[Deployed0], raw[FeesOwed0], h.decimals0);
    ToDecimalOfAdd(Add(raw[Deployed0], raw[FeesOwed0]), raw[Parked0], h.decimals0);
    ToDecimalOfAdd(raw[Deployed1], raw[FeesOwed1], h.decimals1);
    ToDecimalOfAdd(Add(raw[Deployed1], raw[FeesOwed1]), raw[Parked1], h.decimals1);
  }
}
