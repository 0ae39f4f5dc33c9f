# Gamma endpoint: result shaping of pools, hypervisors and registries

This project is a Dafny model of the logic in the Gamma endpoint that runs
once the contract calls have returned. A Gamma hypervisor holds two
concentrated-liquidity positions in a Uniswap-v3 or Algebra pool: the base
range and the limit range. The endpoint reads the pool's `positions`,
`slot0` / `globalState` and `ticks` results and the hypervisor's getters. It
unpacks them into named records and turns them into per-range dictionaries of
deployed amounts, owed fees and uncollected fees. It merges the two ranges,
adds the idle (parked) balances to get the TVL, and converts to decimal units
per token. It also scans the hypervisor and masterchef registries for live
addresses, and aggregates statistics across deployments.

Modules:

- `Wrappers`: `Option`, `Result` and the Python exceptions the code raises.
- `Numbers`: Python `int` versus `Decimal` values (`Num`), `+`, and the
  division by `10**decimals`.
- `Text`: ASCII lower-casing and substring tests on keys.
- `Filtering`: an order-preserving filter and the positions it keeps.
- `Decoding`: tuple layouts and the index-to-field decoders, for both
  Uniswap-v3 and Algebra pools.
- `PoolView`: a pool's per-range `get_qtty_depoloyed` and
  `get_fees_uncollected`, with their decimal conversion.
- `Hypervisor`: the base-plus-limit merge and `get_tvl`.
- `Registry`: the registry scans and the hypervisor generator.
- `Deployments`: the all-deployments statistics endpoint.

The fixed-point formula library (`getSqrtRatioAtTick`,
`getAmountsForLiquidity`, `get_uncollected_fees`) is not part of this model.
It enters as the function-valued fields of `PoolView.Formulas`. Every
property stated here holds for any such functions. Contract-call results
enter as parameters: tuples of integers, registry replies, and per-deployment
outcomes.

## Model

| member | source | states |
|---|---|---|
| Numbers.Add | sources/web3/bins/w3/objects/protocols.py:559 | Python `+` on amounts: the value of the sum is the sum of the values, and it stays an integer exactly when both operands are integers; any `Decimal` operand makes it a `Decimal`. |
| Numbers.ToDecimal | sources/web3/bins/w3/objects/exchanges.py:351-362 | `Decimal(x) / Decimal(10**decimals)` always gives a `Decimal`, and that result times 10^decimals is the raw quantity again. |
| Decoding.Decode | sources/web3/bins/w3/objects/exchanges.py:122-128 | Unpacking a result tuple by a layout fails with `IndexError` exactly when the tuple is shorter than the layout. Otherwise the record has exactly the layout's field names, and field i holds element i. |
| Decoding.DecodeEncode | sources/web3/bins/w3/objects/exchanges.py:122-128 | Decoding the tuple built from a record with the layout's fields gives back that record. |
| Decoding.EncodeDecode | sources/web3/bins/w3/objects/exchanges.py:122-128 | Re-encoding a decoded tuple gives back the tuple's first layout-length elements. |
| Decoding.DecodePositions | sources/web3/bins/w3/objects/exchanges.py:122-128 | A `positions` result decodes iff it has enough elements: 5 for Uniswap-v3, 6 for Algebra. Field i of the pool kind's layout takes element i. |
| Decoding.UniswapPositionsFields | sources/web3/bins/w3/objects/exchanges.py:122-128 | A Uniswap `positions` tuple maps indices 0..4 to liquidity, feeGrowthInside0LastX128, feeGrowthInside1LastX128, tokensOwed0 and tokensOwed1. |
| Decoding.AlgebraPositionsFields | sources/web3/bins/w3/objects/exchanges.py:710-717 | An Algebra `positions` tuple puts lastLiquidityAddTimestamp at index 1, and the shared fields come from indices 0, 2, 3, 4 and 5. |
| Decoding.AlgebraPositionsShift | sources/web3/bins/w3/objects/exchanges.py:710-717 | Remove the timestamp from an Algebra record and you get the Uniswap record of the same tuple with element 1 dropped. |
| Decoding.DecodePoolState | sources/web3/bins/w3/objects/exchanges.py:155-163 | `slot0` and `globalState` decode from 7 elements each, field i from element i. |
| Decoding.PriceAndTickPositions | sources/web3/bins/w3/objects/exchanges.py:648-650 | For both pool kinds, sqrtPriceX96 comes from index 0 and tick from index 1. |
| Decoding.DecodeTicks | sources/web3/bins/w3/objects/exchanges.py:200-209 | A `ticks` result decodes from 8 elements, field i from element i. |
| Decoding.TicksFields | sources/web3/bins/w3/objects/exchanges.py:754-763 | The fee growths outside come from indices 2 and 3, and initialized from index 7. The layout is the same for both pool kinds. |
| Decoding.DecodeHypervisorPosition | sources/web3/bins/w3/objects/protocols.py:194-198 | `getBasePosition` / `getLimitPosition` decode iff the tuple has at least 3 elements, with keys liquidity, amount0 and amount1. |
| Decoding.DecodeTotalAmounts | sources/web3/bins/w3/objects/protocols.py:228-231 | `getTotalAmounts` decodes iff the tuple has at least 2 elements, with keys total0 and total1. |
| Decoding.HypervisorGettersFields | sources/web3/bins/w3/objects/protocols.py:182-231 | The position getters map 0→liquidity, 1→amount0 and 2→amount1. The total-amounts getter maps 0→total0 and 1→total1. |
| PoolView.DecodedRecordsAreReadable | sources/web3/bins/w3/objects/exchanges.py:323-338 | Every successfully decoded record carries every field the range views read. |
| PoolView.ScaleFields | sources/web3/bins/w3/objects/exchanges.py:346-362 | Each token0 field is divided by 10^decimals0 and each token1 field by 10^decimals1. The key set and every other field are unchanged. |
| PoolView.DeployedToDecimal | sources/web3/bins/w3/objects/exchanges.py:346-362 | qtty_token0 and fees_owed_token0 are converted with token0's decimals, the token1 pair with token1's. No other key changes. |
| PoolView.UncollectedToDecimal | sources/web3/bins/w3/objects/exchanges.py:418-424 | The two uncollected quantities are converted, each with its own token's decimals. No other key changes. |
| PoolView.QttyDeployed | sources/web3/bins/w3/objects/exchanges.py:306-344 | The result has exactly the four initial keys. Raw values are integers. fees_owed_token0/1 equal tokensOwed0/1. The quantities are the liquidity-to-amounts formula at the pool price and the two tick bounds. With `inDecimal` every value is a Decimal. |
| PoolView.QttyDeployedDecimalIsScaledRaw | sources/web3/bins/w3/objects/exchanges.py:341-342 | The decimal result is the raw result divided per token. |
| PoolView.FeesOwedIndependentOfFormulas | sources/web3/bins/w3/objects/exchanges.py:336-338 | The owed fees do not depend on the formula library or on the pool state. |
| PoolView.QttyDeployedIgnoresTick | sources/web3/bins/w3/objects/exchanges.py:324-334 | The current tick is read but unused: changing it leaves the result unchanged. |
| PoolView.UncollectedInputs | sources/web3/bins/w3/objects/exchanges.py:399-415 | Each argument of the fee formula comes from the field the code names: the pool's global fee growths, the current tick, the tick records' outside growths, and the position's liquidity and inside growths. |
| PoolView.FeesUncollected | sources/web3/bins/w3/objects/exchanges.py:382-427 | The result has exactly qtty_token0 and qtty_token1, equal to the fee formula's outputs on those inputs. Raw values are integers; with `inDecimal` they are Decimals. |
| PoolView.FeesUncollectedDecimalIsScaledRaw | sources/web3/bins/w3/objects/exchanges.py:418-424 | The decimal result is the raw result divided per token. |
| PoolView.FeesUncollectedIgnoresOwed | sources/web3/bins/w3/objects/exchanges.py:399-415 | The position's owed amounts do not affect the uncollected fees. |
| Hypervisor.MergeShared | sources/web3/bins/w3/objects/protocols.py:559 | The merged dictionary has exactly the keys both ranges have, each value the sum of the two. The sum stays an integer only when both operands are. |
| Hypervisor.MergeScaleCommute | sources/web3/bins/w3/objects/protocols.py:543-559 | Converting each range to decimal then merging equals merging the raw ranges then converting. |
| Hypervisor.RangeDeployed | sources/web3/bins/w3/objects/protocols.py:543-556 | Each range's deployed result comes from that range's own position record and tick bounds at the pool's price. The owed fees are that position's `tokensOwed`. Values are `Decimal` exactly in decimal mode. |
| Hypervisor.Deployed | sources/web3/bins/w3/objects/protocols.py:530-559 | The hypervisor's deployed result has the four deployed keys, all integers when raw and all Decimals otherwise. |
| Hypervisor.DeployedSumsRanges | sources/web3/bins/w3/objects/protocols.py:543-559 | Each raw deployed value is the base range's value plus the limit range's. |
| Hypervisor.DeployedDecimalIsScaledRaw | sources/web3/bins/w3/objects/protocols.py:543-559 | The decimal deployed result is the raw one divided per token. |
| Hypervisor.RangeUncollected | sources/web3/bins/w3/objects/protocols.py:571-584 | Each range's uncollected fees are the fee formula applied to that range's own bounds and the pool's global fee growth. Values are `Decimal` exactly in decimal mode. |
| Hypervisor.Uncollected | sources/web3/bins/w3/objects/protocols.py:561-586 | The uncollected-fees result has the two quantity keys, integers when raw and Decimals otherwise. |
| Hypervisor.UncollectedSumsRanges | sources/web3/bins/w3/objects/protocols.py:571-586 | Each raw uncollected value is the base range's value plus the limit range's. |
| Hypervisor.UncollectedDecimalIsScaledRaw | sources/web3/bins/w3/objects/protocols.py:571-586 | The decimal uncollected result is the raw one divided per token. |
| Hypervisor.TokenOfKey | sources/web3/bins/w3/objects/protocols.py:636-645 | A key is token0's exactly when it contains "token0". It is token1's exactly when it contains "token1" and not "token0". It names neither token exactly when it contains neither substring. |
| Hypervisor.ConvertByKey | sources/web3/bins/w3/objects/protocols.py:633-645 | Raises `ValueError` exactly when some key names neither token. Otherwise it keeps the keys and divides each value by 10^decimals of the token its key names, testing "token0" first. |
| Hypervisor.TvlRaw | sources/web3/bins/w3/objects/protocols.py:603-631 | The raw TVL dictionary has the eight TVL keys, all integers. |
| Hypervisor.Tvl | sources/web3/bins/w3/objects/protocols.py:588-647 | `get_tvl` never raises for its own keys, and it returns exactly the eight TVL keys. |
| Hypervisor.TvlKeysNamedByToken | sources/web3/bins/w3/objects/protocols.py:633-643 | Every TVL key is attributed to the token its name ends in. |
| Hypervisor.NoZeroNoToken0 | sources/web3/bins/w3/objects/protocols.py:636-643 | A key without the digit 0 cannot be taken for a token0 key. |
| Hypervisor.TvlIsSumOfParts | sources/web3/bins/w3/objects/protocols.py:616-631 | tvl_tokenN = deployed_tokenN + fees_owed_tokenN + parked_tokenN. The sum is of raw integers: deployed and owed come from the raw merged result. |
| Hypervisor.TvlDecimalIsScaledRaw | sources/web3/bins/w3/objects/protocols.py:633-645 | In decimal mode every TVL field, the sums included, is its raw value divided by its token's 10^decimals. |
| Text.Lower | sources/web3/bins/w3/objects/protocols.py:1025 | Lower-casing keeps the length, maps each character by itself, and leaves no upper-case ASCII letter. |
| Registry.ScanRegistry | sources/web3/bins/w3/objects/protocols.py:1007-1033 | The loop over positions 0..counter collects exactly the addresses of the replies that survive the filter, in order. |
| Registry.ListedCharacterisation | sources/web3/bins/w3/objects/protocols.py:1014-1031 | The j-th listed address comes from the j-th surviving position, and positions ascend. A position survives iff its call returned, `idx != 0`, and its lower-cased address is not blacklisted on the network. Every surviving position is listed. |
| Registry.ListedMembership | sources/web3/bins/w3/objects/protocols.py:1014-1031 | An address is listed iff some position in 0..counter holds it and survives. The list has at most counter + 1 entries. |
| Registry.HypervisorAddresses | sources/web3/bins/w3/objects/protocols.py:1007-1033 | The hypervisor registry's scan uses the per-network blacklist of known non-hypervisor addresses. |
| Registry.BlacklistIgnoresCase | sources/web3/bins/w3/objects/protocols.py:1022-1027 | A reply whose address lower-cases to a blacklisted entry is dropped, whatever its letters' case. |
| Registry.MasterchefAddresses | sources/web3/bins/w3/objects/protocols.py:2056-2081 | The masterchef registry's scan is the same filter with the masterchef blacklist. |
| Registry.MasterchefDropsOnlyDeleted | sources/web3/bins/w3/objects/protocols.py:1984 | The masterchef blacklist is empty, so only failed calls and `idx == 0` entries are dropped. |
| Registry.Generated | sources/web3/bins/w3/objects/protocols.py:968-1005 | The corrected generator over positions 0..counter yields the addresses the registry scan lists, filtered by the test call, in order. |
| Registry.GeneratorAsWritten | sources/web3/bins/w3/objects/protocols.py:975-1003 | The generator as written can only fail with `UnboundLocalError`. When it returns, it yields at most one address per position, and each passed the test call. |
| Registry.GeneratedIsProbedListed | sources/web3/bins/w3/objects/protocols.py:968-1005 | The corrected generator yields exactly the listed addresses whose `getTotalAmounts` probe succeeds, in the same order. |
| Registry.GeneratorAsWrittenOutcome | sources/web3/bins/w3/objects/protocols.py:975-1003 | The generator as written raises `UnboundLocalError` exactly when the call at position 0 raises. Otherwise it yields what the corrected generator yields. |
| Registry.GeneratorAsWrittenYieldsNothing | sources/web3/bins/w3/objects/protocols.py:990-996 | With the test call as written, which reads an unloaded cached property and so raises for every address, the generator yields no address at all: it raises `UnboundLocalError` when position 0 reverts and returns an empty list otherwise. |
| Registry.GeneratorMissesLiveHypervisor | sources/web3/bins/w3/objects/protocols.py:990-996 | Example: one live hypervisor. The generator as written returns an empty list; the corrected one, whose test call succeeds, yields its address. |
| Registry.GeneratorFailsOnFirstRevert | sources/web3/bins/w3/objects/protocols.py:999-1003 | Example: position 0 reverts and position 1 is live. The code as written raises; the corrected generator yields the live address. |
| Deployments.AggregateDeployments | sources/subgraph/enpoint/routers.py:330-356 | Fails with `IndexError` exactly when every deployment raised an `Exception`. Fails with a type error exactly when some run was cancelled, since a cancellation is not an `Exception` and is kept. Otherwise every kept result holds statistics, the figures come unchanged from the left fold of `+` over the valid results, seeded with the first, and `deployments` is the list of included labels. |
| Deployments.SurvivorsCharacterisation | sources/subgraph/enpoint/routers.py:340-348 | The valid results and the included labels have the same length. The j-th of each comes from the same deployment whose result is not an `Exception`, in `DEPLOYMENTS` order, labelled "protocol-chain". Every deployment that did not raise is included. |
| Deployments.CancelledSurvives | sources/subgraph/enpoint/routers.py:330-348 | A cancelled run's result is among the valid results iff some run was cancelled: `asyncio.CancelledError` is not an `Exception`, so the filter keeps it. |
| Deployments.NoSurvivorsIffAllRaised | sources/subgraph/enpoint/routers.py:340-349 | No result is kept iff every run raised an `Exception`, which is when `valid_results[0]` raises `IndexError`. |
| Deployments.Label | sources/subgraph/enpoint/routers.py:346 | The label is the protocol, a dash, then the chain, and it splits back into those parts. |
| Deployments.Sum | sources/subgraph/enpoint/routers.py:349 | `sum(items, start)` with no items is `start`, and with one item it is `start + item`. |
| Deployments.SumConcat | sources/subgraph/enpoint/routers.py:349 | Summing a concatenation equals summing the second part from the sum of the first. This is the left-to-right order of Python's `sum`. |
| Deployments.SumOfPlus | sources/subgraph/enpoint/routers.py:349 | With field-wise `+`, the fold from a seed adds every item's pair count, TVL and fees claimed to the seed's. |
| Deployments.AggregateOfPlus | sources/subgraph/enpoint/routers.py:349-356 | With field-wise `+`, the reported figures are the totals over the included deployments. |

## Left out

- Contract calls, `asyncio.gather` and the `await` plumbing are not modelled. Their results are parameters, and at each site below the model takes the value the call was evidently meant to produce.
  - Missing `await`: exchanges.py:314, 388, 916 and 989; the global fee growths at exchanges.py:403-404 and 972-973; the token decimals at exchanges.py:348-349, 420 and 423.
  - Subscripted coroutines: exchanges.py:394 and 963.
  - The hypervisor's own address is passed un-awaited at protocols.py:545, 552, 573 and 580, but awaited at protocols.py:612-613, so one of the two forms is wrong.
  - The masterchef registry returns its `counter` and `hypeByIndex` `.call()` results without awaiting them (protocols.py:1993 and 2005, read at 2063 and 2069), while the hypervisor registry awaits the same calls (protocols.py:935, 949). Registry.MasterchefAddresses takes the intended values.
- Hypervisor.Tvl: models the intended `get_tvl`. As written, protocols.py:612-613 read `.balanceOf` on `self.pool.token0` and `self.pool.token1`. Those are `async` properties (exchanges.py:211-212, 771-772), so the lookup is on a coroutine and raises `AttributeError` on every call. `as_dict` fails the same way through protocols.py:700-703.
- The fixed-point formula library (tick math, liquidity amounts, uncollected-fee math, position-key hashing) is not part of this model. It is uninterpreted.
- Numbers.ToDecimal: divides exactly over the reals. Python's `Decimal` rounds to its context precision (28 digits by default), so decimal results are idealised.
- Hypervisor.Tvl: one pair of decimals stands for both the hypervisor's tokens and the pool's, which the source reads separately (`self._token0` versus `self.pool.token0`).
- Hypervisor.ConvertByKey: the `ValueError` carries no message. The key it names is not modelled.
- Text.Lower: lower-cases ASCII letters only; Python's `str.lower` also folds other scripts. Addresses are hexadecimal ASCII.
- Registry.GeneratorAsWrittenOutcome: the test call is a parameter here. The call as written is fixed in Registry.GeneratorAsWrittenYieldsNothing; the base contract class that defines the cached property is not part of this model.
- Dictionary insertion order is not modelled: results are finite maps.
- Deployments.AggregateDeployments: a kept cancellation is reported as `TypeError`. Python raises `AttributeError` or `TypeError`, depending on its position and on `AggregateStats.__add__`, which is not part of this model.
- Deployments.AggregateDeployments: the statistics' `+` is taken as a parameter, because `AggregateStats.__add__` is not part of this model. The totals lemmas assume field-wise addition.
- Running `AggregateStats` per deployment and the output model's validation are not modelled; each run is an outcome parameter.
- `get_masterchef_generator` is not modelled. It applies the address filter and builds contract objects, and it shares the handler defect listed under Findings.
- Not modelled: the masterchef, rewarder, voter and gauge contract classes, the `block` / `timestamp` setters, `as_dict`, `sources/web3/bins/apps/hypervisors.py`, the FastAPI routing and caching layers, and the subgraph clients. They are contract getters, object plumbing or presentation.

## Findings

| source | as written | input that shows it | evidently intended | confidence | as-written member | corrected member |
|---|---|---|---|---|---|---|
| sources/web3/bins/w3/objects/protocols.py:999-1003 | When `hypeByIndex` raises, the handler's warning formats `hypervisor_id`. That local is unassigned if no earlier call returned, so the handler raises `UnboundLocalError` and the generator stops. | A registry whose `hypeByIndex(0)` reverts while later positions are live. The comment at line 1018 notes that some networks index from 1. | Log the failure and go on to the next position. | high; not executed | Registry.GeneratorAsWritten | Registry.Generated |
| sources/web3/bins/w3/objects/protocols.py:996 | The test call awaits the `getTotalAmounts` property, which returns a cache that only the `init_*` loaders fill (protocols.py:218-231, 422-430). The freshly built hypervisor is not loaded, so the read raises for every address and every address is skipped. | A registry holding one live hypervisor at position 0: the generator returns an empty list. | Make the `getTotalAmounts` contract call on the address and skip it only when that call fails. | medium; not executed (the base contract class is not part of this model) | Registry.GeneratorAsWrittenYieldsNothing | Registry.GeneratedIsProbedListed |
