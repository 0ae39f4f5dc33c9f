/** Address discovery in the Gamma registries. A registry numbers its
    entries 0..counter; `hypeByIndex(i)` returns the entry's address and its
    registry index, an index of 0 marking a deleted entry. The scans walk
    every position, skip deleted entries, skip addresses on a per-network
    blacklist (compared lower-cased) and swallow failing calls. */
module Registry {
  import opened Wrappers
  import opened Text
  import opened Filtering

  /** The outcome of `hypeByIndex(i)`: the call failed, or it returned an
      address and its registry index. */
  datatype Reply = Failed | Entry(address: string, idx: int)

  /** Network name to the lower-cased addresses to skip on it. */
  type Blacklists = map<string, seq<string>>

  /** The hypervisor registry's hard-coded erroneous addresses. */
  const HypervisorBlacklists: Blacklists := map[
    "ethereum" := [Lower("0x2260FAC5E5542a773Aa44fBCfeDf7C193bc2C599")],
    "polygon" := [Lower("0xa9782a2c9c3fb83937f14cdfac9a6d23946c9255"),
                  Lower("0xfb0bc232CD11dBe804B489860c470B7f9cc80D9F")],
    "optimism" := [Lower("0xc7722271281Aa6D5D027fC9B21989BE99424834f")],
    "arbitrum" := [Lower("0x38f81e638f9e268e8417F2Ff76C270597fa077A0")]]

  /** The masterchef registry skips no address. */
  const MasterchefBlacklists: Blacklists := map[]

  predicate Blacklisted(blacklists: Blacklists, network: string, address: string) {
    network in blacklists && Lower(address) in blacklists[network]
  }

  /** A reply survives the scan when the call succeeded, the entry is not
      deleted and its address is not blacklisted on the network. */
  predicate Keeps(blacklists: Blacklists, network: string, reply: Reply) {
    reply.Entry? && reply.idx != 0 && !Blacklisted(blacklists, network, reply.address)
  }

  /** `Keeps` as the test handed to `Filter`. */
  function Keep(blacklists: Blacklists, network: string): Reply -> bool {
    r => Keeps(blacklists, network, r)
  }

  /** The generator's test: `Keeps` and the test call on the address. */
  function KeepProbed(blacklists: Blacklists, network: string, isHypervisor: string -> bool): Reply -> bool {
    r => Keeps(blacklists, network, r) && isHypervisor(r.address)
  }

  /** The replies for positions `0 .. count - 1`, in order. */
  function Replies(hypeByIndex: int -> Reply, count: int): (s: seq<Reply>)
    ensures |s| == if count < 0 then 0 else count
    ensures forall i :: 0 <= i < |s| ==> s[i] == hypeByIndex(i)
  {
    if count <= 0 then [] else seq(count, i requires 0 <= i < count => hypeByIndex(i))
  }

  lemma RepliesSnoc(hypeByIndex: int -> Reply, i: nat)
    ensures Replies(hypeByIndex, i + 1) == Replies(hypeByIndex, i) + [hypeByIndex(i)]
  {
  }

  function Addresses(entries: seq<Reply>): (r: seq<string>)
    requires forall e :: e in entries ==> e.Entry?
    ensures |r| == |entries|
    ensures forall j :: 0 <= j < |entries| ==> r[j] == entries[j].address
  {
    seq(|entries|, j requires 0 <= j < |entries| => entries[j].address)
  }

  /** The addresses of the surviving replies among the first `count`
      positions, in position order. */
  function Listed(hypeByIndex: int -> Reply, count: int, network: string, blacklists: Blacklists): seq<string> {
    ListedIn(Replies(hypeByIndex, count), network, blacklists)
  }

  /** The addresses of the surviving replies, in order. */
  function ListedIn(replies: seq<Reply>, network: string, blacklists: Blacklists): seq<string> {
    var kept := Filter(Keep(blacklists, network), replies);
    assert forall e :: e in kept ==> Keeps(blacklists, network, e);
    Addresses(kept)
  }

  /** Scanning one more reply appends its address exactly when it survives. */
  lemma ListedInSnoc(replies: seq<Reply>, x: Reply, network: string, blacklists: Blacklists)
    ensures ListedIn(replies + [x], network, blacklists)
         == ListedIn(replies, network, blacklists)
            + (if Keeps(blacklists, network, x) then [x.address] else [])
  {
    FilterSnoc(Keep(blacklists, network), replies, x);
  }

  /** `get_hypervisors_addresses` / `get_masterchef_addresses`: visits
      positions 0..counter in order and collects the surviving addresses. */
  method ScanRegistry(hypeByIndex: int -> Reply, counter: int, network: string, blacklists: Blacklists)
    returns (result: seq<string>)
    ensures result == Listed(hypeByIndex, counter + 1, network, blacklists)
  {
    var total := counter + 1;
    result := [];
    var i := 0;
    while i < total
      invariant 0 <= i && (i <= total || i == 0)
      invariant result == ListedIn(Replies(hypeByIndex, i), network, blacklists)
    {
      var reply := hypeByIndex(i);
      RepliesSnoc(hypeByIndex, i);
      ListedInSnoc(Replies(hypeByIndex, i), reply, network, blacklists);
      if Keeps(blacklists, network, reply) {
        result := result + [reply.address];
      }
      i := i + 1;
    }
    assert Replies(hypeByIndex, i) == Replies(hypeByIndex, total);
  }

  /** What the scan returns: the address of every surviving position exactly
      once, in ascending position order, and nothing else. `KeptIndices`
      names the positions the addresses come from. */
  lemma ListedCharacterisation(hypeByIndex: int -> Reply, count: int, network: string, blacklists: Blacklists)
    ensures var keep := Keep(blacklists, network);
      var ix := KeptIndices(keep, Replies(hypeByIndex, count));
      var listed := Listed(hypeByIndex, count, network, blacklists);
      && |ix| == |listed|
      && StrictlyIncreasing(ix)
      && (forall j :: 0 <= j < |ix| ==>
            0 <= ix[j] < count
            && Keeps(blacklists, network, hypeByIndex(ix[j]))
            && listed[j] == hypeByIndex(ix[j]).address)
      && (forall i :: 0 <= i < count && Keeps(blacklists, network, hypeByIndex(i)) ==> i in ix)
  {
    var keep := Keep(blacklists, network);
    FilterByIndices(keep, Replies(hypeByIndex, count));
  }

  /** An address is listed exactly when some visited position holds it and
      survives the filter; at most one address per visited position. */
  lemma ListedMembership(hypeByIndex: int -> Reply, counter: int, network: string, blacklists: Blacklists, a: string)
    ensures var listed := Listed(hypeByIndex, counter + 1, network, blacklists);
      && |listed| <= (if counter < 0 then 0 else counter + 1)
      && (a in listed <==>
            exists i :: 0 <= i <= counter && Keeps(blacklists, network, hypeByIndex(i))
                        && hypeByIndex(i).address == a)
  {
    var listed := Listed(hypeByIndex, counter + 1, network, blacklists);
    ListedCharacterisation(hypeByIndex, counter + 1, network, blacklists);
    var ix := KeptIndices(Keep(blacklists, network), Replies(hypeByIndex, counter + 1));
    if a in listed {
      var j :| 0 <= j < |listed| && listed[j] == a;
      assert 0 <= ix[j] <= counter && Keeps(blacklists, network, hypeByIndex(ix[j]));
    }
    if exists i :: 0 <= i <= counter && Keeps(blacklists, network, hypeByIndex(i)) && hypeByIndex(i).address == a {
      var i :| 0 <= i <= counter && Keeps(blacklists, network, hypeByIndex(i)) && hypeByIndex(i).address == a;
      assert i in ix;
      var j :| 0 <= j < |ix| && ix[j] == i;
      assert listed[j] == a;
    }
  }

  /** `get_hypervisors_addresses` of the hypervisor registry. */
  method HypervisorAddresses(hypeByIndex: int -> Reply, counter: int, network: string)
    returns (result: seq<string>)
    ensures result == Listed(hypeByIndex, counter + 1, network, HypervisorBlacklists)
  {
    result := ScanRegistry(hypeByIndex, counter, network, HypervisorBlacklists);
  }

  /** `get_masterchef_addresses` of the masterchef registry. */
  method MasterchefAddresses(hypeByIndex: int -> Reply, counter: int, network: string)
    returns (result: seq<string>)
    ensures result == Listed(hypeByIndex, counter + 1, network, MasterchefBlacklists)
  {
    result := ScanRegistry(hypeByIndex, counter, network, MasterchefBlacklists);
  }

  /** With no blacklist the masterchef scan drops only failed calls and
      deleted entries. */
  lemma MasterchefDropsOnlyDeleted(network: string, r: Reply)
    ensures Keeps(MasterchefBlacklists, network, r) <==> r.Entry? && r.idx != 0
  {
  }

  /** A blacklisted address is skipped however its letters are cased. */
  lemma BlacklistIgnoresCase(network: string, r: Reply, listedAs: string)
    requires network in HypervisorBlacklists && listedAs in HypervisorBlacklists[network]
    requires r.Entry? && Lower(r.address) == listedAs
    ensures !Keeps(HypervisorBlacklists, network, r)
  {
  }

  // ---------------------------------------------------------------------
  // The generator variant.

  /** `get_hypervisors_generator`: like the address scan, but an address is
      only kept when the test call made on it (`getTotalAmounts`) succeeds,
      as reported by `isHypervisor`. */
  function Generated(hypeByIndex: int -> Reply, count: int, network: string,
                     blacklists: Blacklists, isHypervisor: string -> bool): (r: seq<string>)
    ensures r == Filter(isHypervisor, Listed(hypeByIndex, count, network, blacklists))
  {
    GeneratedIsProbedListed(Replies(hypeByIndex, count), network, blacklists, isHypervisor);
    GeneratedIn(Replies(hypeByIndex, count), network, blacklists, isHypervisor)
  }

  function GeneratedIn(replies: seq<Reply>, network: string,
                       blacklists: Blacklists, isHypervisor: string -> bool): seq<string>
  {
    var kept := Filter(KeepProbed(blacklists, network, isHypervisor), replies);
    assert forall e :: e in kept ==> Keeps(blacklists, network, e);
    Addresses(kept)
  }

  lemma GeneratedInSnoc(replies: seq<Reply>, x: Reply, network: string,
                        blacklists: Blacklists, isHypervisor: string -> bool)
    ensures GeneratedIn(replies + [x], network, blacklists, isHypervisor)
         == GeneratedIn(replies, network, blacklists, isHypervisor)
            + (if Keeps(blacklists, network, x) && isHypervisor(x.address) then [x.address] else [])
  {
    FilterSnoc(KeepProbed(blacklists, network, isHypervisor), replies, x);
  }

  /** The generator yields exactly the listed addresses that pass the test
      call, in the same order. */
  lemma {:induction false} GeneratedIsProbedListed(replies: seq<Reply>, network: string,
                                                   blacklists: Blacklists, isHypervisor: string -> bool)
    ensures GeneratedIn(replies, network, blacklists, isHypervisor)
         == Filter(isHypervisor, ListedIn(replies, network, blacklists))
  {
    if replies != [] {
      var prev := replies[..|replies| - 1];
      var x := replies[|replies| - 1];
      assert replies == prev + [x];
      GeneratedIsProbedListed(prev, network, blacklists, isHypervisor);
      GeneratedInSnoc(prev, x, network, blacklists, isHypervisor);
      ListedInSnoc(prev, x, network, blacklists);
      var listedPrev := ListedIn(prev, network, blacklists);
      if Keeps(blacklists, network, x) {
        FilterSnoc(isHypervisor, listedPrev, x.address);
        assert ListedIn(replies, network, blacklists) == listedPrev + [x.address];
      } else {
        assert ListedIn(replies, network, blacklists) == listedPrev;
        assert GeneratedIn(replies, network, blacklists, isHypervisor)
            == GeneratedIn(prev, network, blacklists, isHypervisor);
      }
    }
  }

  // ---------------------------------------------------------------------
  // The generator as written.

  /** Some reply in `s` returned an address. */
  predicate AnyEntry(s: seq<Reply>) {
    exists j :: 0 <= j < |s| && s[j].Entry?
  }

  /** `get_hypervisors_generator` as written. When a `hypeByIndex` call
      raises, the handler's warning message reads `hypervisor_id`; if no
      earlier call has returned, that local is still unassigned and the
      handler itself raises `UnboundLocalError`, ending the scan. */
  function GeneratorAsWritten(replies: seq<Reply>, network: string,
                              blacklists: Blacklists, isHypervisor: string -> bool): (r: Result<seq<string>>)
    ensures r.Err? ==> r.error == UnboundLocalError
    ensures r.Ok? ==> |r.value| <= |replies|
    ensures r.Ok? ==> forall a :: a in r.value ==> isHypervisor(a)
    decreases |replies|
  {
    if replies == [] then Ok([])
    else
      var n := |replies| - 1;
      var prev := GeneratorAsWritten(replies[..n], network, blacklists, isHypervisor);
      var x := replies[n];
      if prev.Err? then prev
      else if x.Failed? && !AnyEntry(replies[..n]) then Err(UnboundLocalError)
      else Ok(prev.value + (if Keeps(blacklists, network, x) && isHypervisor(x.address) then [x.address] else []))
  }

  /** The generator as written fails exactly when the call at position 0
      raises; otherwise it yields what the corrected generator yields. */
  lemma {:induction false} GeneratorAsWrittenOutcome(replies: seq<Reply>, network: string,
                                                     blacklists: Blacklists, isHypervisor: string -> bool)
    ensures var r := GeneratorAsWritten(replies, network, blacklists, isHypervisor);
      && (r.Err? <==> |replies| > 0 && replies[0].Failed?)
      && (r.Err? ==> r.error == UnboundLocalError)
      && (r.Ok? ==> r.value == GeneratedIn(replies, network, blacklists, isHypervisor))
    decreases |replies|
  {
    if replies != [] {
      var n := |replies| - 1;
      var prefix := replies[..n];
      assert replies == prefix + [replies[n]];
      GeneratorAsWrittenOutcome(prefix, network, blacklists, isHypervisor);
      GeneratedInSnoc(prefix, replies[n], network, blacklists, isHypervisor);
      if n > 0 {
        assert prefix[0] == replies[0];
        if !replies[0].Failed? {
          assert AnyEntry(prefix) by { assert prefix[0].Entry?; }
        }
      }
    }
  }

  /** A registry whose position 0 reverts: the corrected generator yields
      the live hypervisor at position 1, the code as written raises. */
  lemma GeneratorFailsOnFirstRevert()
    ensures var replies := [Failed, Entry("0x01", 1)];
      var anyAddress := (a: string) => true;
      && GeneratorAsWritten(replies, "base", HypervisorBlacklists, anyAddress).Err?
      && GeneratedIn(replies, "base", HypervisorBlacklists, anyAddress) == ["0x01"]
  {
    var replies := [Failed, Entry("0x01", 1)];
    var anyAddress := (a: string) => true;
    GeneratorAsWrittenOutcome(replies, "base", HypervisorBlacklists, anyAddress);
    assert replies == [Failed] + [Entry("0x01", 1)];
    GeneratedInSnoc([Failed], Entry("0x01", 1), "base", HypervisorBlacklists, anyAddress);
    GeneratedInSnoc([], Failed, "base", HypervisorBlacklists, anyAddress);
    BaseHasNoBlacklist();
  }

  /** The test call as written: `await hypervisor.getTotalAmounts` reads a
      cached property that only the `init_*` loaders fill, and the freshly
      built hypervisor has not been loaded, so the read raises for every
      address and every address is skipped. */
  function ProbeAsWritten(): string -> bool {
    (a: string) => false
  }

  /** With the test call as written, the generator never yields an
      address: it either fails on a revert at position 0 or yields
      nothing. */
  lemma GeneratorAsWrittenYieldsNothing(replies: seq<Reply>, network: string, blacklists: Blacklists)
    ensures GeneratorAsWritten(replies, network, blacklists, ProbeAsWritten())
         == if |replies| > 0 && replies[0].Failed? then Err(UnboundLocalError) else Ok([])
  {
    GeneratorAsWrittenOutcome(replies, network, blacklists, ProbeAsWritten());
    GeneratedIsProbedListed(replies, network, blacklists, ProbeAsWritten());
    FilterEmpty(ProbeAsWritten(), ListedIn(replies, network, blacklists));
  }

  /** A registry holding one live hypervisor: the generator as written
      yields nothing, the corrected one, whose test call succeeds on it,
      yields its address. */
  lemma GeneratorMissesLiveHypervisor()
    ensures var replies := [Entry("0x01", 1)];
      && GeneratorAsWritten(replies, "base", HypervisorBlacklists, ProbeAsWritten()) == Ok([])
      && GeneratedIn(replies, "base", HypervisorBlacklists, (a: string) => true) == ["0x01"]
  {
    GeneratorAsWrittenYieldsNothing([Entry("0x01", 1)], "base", HypervisorBlacklists);
    BaseHasNoBlacklist();
    LoneLiveEntry("0x01", 1, "base", HypervisorBlacklists, (a: string) => true);
  }

  lemma BaseHasNoBlacklist()
    ensures "base" !in HypervisorBlacklists
  {
  }

  /** A lone live, unlisted entry that passes the test call is yielded. */
  lemma LoneLiveEntry(address: string, idx: int, network: string, blacklists: Blacklists,
                      isHypervisor: string -> bool)
    requires idx != 0 && network !in blacklists && isHypervisor(address)
    ensures GeneratedIn([Entry(address, idx)], network, blacklists, isHypervisor) == [address]
  {
    assert [Entry(address, idx)] == [] + [Entry(address, idx)];
    GeneratedInSnoc([], Entry(address, idx), network, blacklists, isHypervisor);
  }
}
