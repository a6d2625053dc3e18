/** What holds across cluster pages and between them and the channel's pools page. */
module ClusterTheorems {
  import opened Prelude
  import opened Sorting
  import opened HostPort
  import opened Xds
  import opened Subchannels
  import opened Pools
  import opened ClusterPage
  import WorkerPool

  // ----- The orphan list is the same on every page -----

  /** Every endpoint of the cluster can be recognised from any page: it prints a non-empty
      address that is in EDS, or (DNS) it has a port that survives printing and parsing. */
  ghost predicate Accountable(res: Resources, c: Cluster) {
    forall e | e in EndpointsOf(OwnLocalities(res, c)) :: AccountableEndpoint(res, IsDns(c), e)
  }

  ghost predicate AccountableEndpoint(res: Resources, dns: bool, e: Endpoint) {
    && e.address.Some?
    && (!dns || FormatEndpoint(e) in SiblingAddresses(res) || HasReadablePort(e.address.value))
  }

  predicate HasReadablePort(a: SocketAddress) { a.port != 0 && Splittable(a.address) }

  lemma EndpointAccountedFor(res: Resources, name: string, e: Endpoint)
    requires name in res.clusters
    requires e in EndpointsOf(OwnLocalities(res, res.clusters[name]))
    ensures AccountableEndpoint(res, IsDns(res.clusters[name]), e)
      <==> FormatEndpoint(e) in SiblingAddresses(res)
           || PortFromHostPort(FormatEndpoint(e)) in DnsPorts(res.clusters)
  {
    var c := res.clusters[name];
    OnlyMissingIsEmpty(e.address);
    if e.address.Some? {
      PortRoundTrip(e.address.value.address, e.address.value.port);
      if IsDns(c) && PortOf(e) != 0 {
        assert PortOf(e) in PortsOf(InlineEndpoints(c));
        assert PortOf(e) in DnsPorts(res.clusters);
      }
    }
  }

  /** The page of an accountable cluster leaves over exactly the unclaimed subchannels. */
  lemma OrphansAreUnclaimed(res: Resources, name: string, byAddr: ByAddress, info: InfoMap)
    requires name in res.clusters && Indexed(byAddr, info) && Accountable(res, res.clusters[name])
    ensures OrphanIds(res, res.clusters[name], byAddr, info) == UnclaimedIds(res, info)
  {
    var c := res.clusters[name];
    var own := EndpointsOf(OwnLocalities(res, c));
    forall id | id in MatchedIds(res, c, byAddr, info) ensures id !in UnclaimedIds(res, info) {
      if id in ClaimedIds(own, byAddr) {
        var e :| e in own && FormatEndpoint(e) in byAddr && id in byAddr[FormatEndpoint(e)];
        EndpointAccountedFor(res, name, e);
      } else {
        var p := PortFromHostPort(info[id].target);
        assert p in PortsOf(InlineEndpoints(c));
        assert p in DnsPorts(res.clusters);
      }
    }
  }

  /** A channel with one subchannel, aimed at addr. */
  ghost function Probe(addr: string): InfoMap {
    map[1 := SubchannelInfo("", addr, "", 1, 0, 1, [])]
  }

  lemma ProbeIndexed(addr: string)
    ensures Indexed(map[addr := [1]], Probe(addr))
  {
  }

  lemma ProbeClaimed(eps: seq<Endpoint>, e: Endpoint)
    requires e in eps
    ensures ClaimedIds(eps, map[FormatEndpoint(e) := [1]]) == {1}
  {
    var byAddr: ByAddress := map[FormatEndpoint(e) := [1]];
    var ids := byAddr[FormatEndpoint(e)];
    assert ids == [1] && ids[0] in ids;
    assert ids[0] in ClaimedIds(eps, byAddr);
  }

  /** Accountability is also necessary: any other cluster hides some orphan from its own page,
      an orphan that the page of every accountable cluster lists. */
  lemma UnaccountableHidesOrphan(res: Resources, name: string, e: Endpoint)
    requires name in res.clusters && e in EndpointsOf(OwnLocalities(res, res.clusters[name]))
    requires !AccountableEndpoint(res, IsDns(res.clusters[name]), e)
    ensures var addr := FormatEndpoint(e);
      && Indexed(map[addr := [1]], Probe(addr))
      && 1 in UnclaimedIds(res, Probe(addr))
      && 1 !in OrphanIds(res, res.clusters[name], map[addr := [1]], Probe(addr))
      && forall other | other in res.clusters && Accountable(res, res.clusters[other]) ::
           1 in OrphanIds(res, res.clusters[other], map[addr := [1]], Probe(addr))
  {
    var c, addr := res.clusters[name], FormatEndpoint(e);
    EndpointAccountedFor(res, name, e);
    ProbeIndexed(addr);
    var byAddr := map[addr := [1]];
    ProbeClaimed(EndpointsOf(OwnLocalities(res, c)), e);
    assert 1 in MatchedIds(res, c, byAddr, Probe(addr));
    forall other | other in res.clusters && Accountable(res, res.clusters[other])
      ensures 1 in OrphanIds(res, res.clusters[other], byAddr, Probe(addr)) {
      OrphansAreUnclaimed(res, other, byAddr, Probe(addr));
    }
  }

  ghost predicate OrphansRight(res: Resources, c: Cluster, byAddr: ByAddress, info: InfoMap) {
    OrphanIds(res, c, byAddr, info) == UnclaimedIds(res, info)
  }

  /** For which clusters the orphan list is right whatever the subchannels are: exactly the
      accountable ones. */
  lemma OrphansRightExactlyWhenAccountable(res: Resources, name: string)
    requires name in res.clusters
    ensures Accountable(res, res.clusters[name]) <==>
      forall byAddr, info | Indexed(byAddr, info) :: OrphansRight(res, res.clusters[name], byAddr, info)
  {
    var c := res.clusters[name];
    if Accountable(res, c) {
      forall byAddr, info | Indexed(byAddr, info) ensures OrphansRight(res, c, byAddr, info) {
        OrphansAreUnclaimed(res, name, byAddr, info);
      }
    } else {
      var e :| e in EndpointsOf(OwnLocalities(res, c)) && !AccountableEndpoint(res, IsDns(c), e);
      UnaccountableHidesOrphan(res, name, e);
      assert !OrphansRight(res, c, map[FormatEndpoint(e) := [1]], Probe(FormatEndpoint(e)));
    }
  }

  ghost predicate HaveAddresses(eps: seq<Endpoint>) { forall e | e in eps :: e.address.Some? }

  /** For a cluster fed by EDS: exactly when all its endpoints have socket addresses. */
  lemma EdsOrphansRightExactly(res: Resources, name: string)
    requires name in res.clusters && !IsDns(res.clusters[name])
    ensures HaveAddresses(EndpointsOf(OwnLocalities(res, res.clusters[name]))) <==>
      forall byAddr, info | Indexed(byAddr, info) :: OrphansRight(res, res.clusters[name], byAddr, info)
  {
    OrphansRightExactlyWhenAccountable(res, name);
    assert Accountable(res, res.clusters[name])
      <==> HaveAddresses(EndpointsOf(OwnLocalities(res, res.clusters[name])));
  }

  lemma UnmatchedListingUnique(rows: seq<UnmatchedRow>, rows': seq<UnmatchedRow>, ids: set<int>, info: InfoMap)
    requires ids <= info.Keys
    requires IsUnmatchedListing(rows, ids, info) && IsUnmatchedListing(rows', ids, info)
    ensures rows == rows'
  {
    ListingUnique(rows, rows', UnmatchedLess);
  }

  /** Two pages of one snapshot show the same orphans in the same order. */
  lemma OrphanListSameOnEveryPage(res: Resources, a: string, b: string, byAddr: ByAddress, info: InfoMap,
                                  pageA: PageData, pageB: PageData)
    requires a in res.clusters && b in res.clusters && Indexed(byAddr, info)
    requires Accountable(res, res.clusters[a]) && Accountable(res, res.clusters[b])
    requires IsPage(pageA, res, res.clusters[a], byAddr, info)
    requires IsPage(pageB, res, res.clusters[b], byAddr, info)
    ensures pageA.unmatched == pageB.unmatched
    ensures IsUnmatchedListing(pageA.unmatched, UnclaimedIds(res, info), info)
  {
    OrphansAreUnclaimed(res, a, byAddr, info);
    OrphansAreUnclaimed(res, b, byAddr, info);
    UnmatchedListingUnique(pageA.unmatched, pageB.unmatched, UnclaimedIds(res, info), info);
  }

  // ----- Every subchannel is in exactly one place -----

  /** Subchannels left out because a sibling or DNS cluster accounts for them. */
  ghost function ExcludedIds(res: Resources, c: Cluster, byAddr: ByAddress, info: InfoMap): set<int> {
    info.Keys - MatchedIds(res, c, byAddr, info) - OrphanIds(res, c, byAddr, info)
  }

  ghost function UnmatchedIds(rows: seq<UnmatchedRow>): set<int> { set row | row in rows :: row.id }

  lemma {:induction false} UnmatchedCount(rows: seq<UnmatchedRow>)
    requires Ascending(rows, UnmatchedLess)
    ensures |UnmatchedIds(rows)| == |rows|
  {
    if rows != [] {
      var n := |rows| - 1;
      AscendingPrefix(rows, n, UnmatchedLess);
      UnmatchedCount(rows[..n]);
      assert rows == rows[..n] + [rows[n]];
      assert UnmatchedIds(rows) == UnmatchedIds(rows[..n]) + {rows[n].id};
      assert rows[n].id !in UnmatchedIds(rows[..n]);
    }
  }

  lemma UnmatchedListed(d: PageData, res: Resources, c: Cluster, byAddr: ByAddress, info: InfoMap)
    requires IsPage(d, res, c, byAddr, info)
    ensures UnmatchedIds(d.unmatched) == OrphanIds(res, c, byAddr, info)
    ensures |d.unmatched| == |OrphanIds(res, c, byAddr, info)|
  {
    UnmatchedCount(d.unmatched);
    forall id | id in OrphanIds(res, c, byAddr, info) ensures id in UnmatchedIds(d.unmatched) {
      assert UnmatchedRow(id, info[id].name, info[id].target) in d.unmatched;
    }
  }

  lemma ThreeParts(whole: set<int>, a: set<int>, b: set<int>)
    requires a <= whole && b <= whole && a !! b
    ensures |a| + |b| + |whole - a - b| == |whole|
    ensures a !! b !! (whole - a - b) && a + b + (whole - a - b) == whole
  {
    assert |a + b| == |a| + |b|;
    assert whole == (a + b) + (whole - a - b);
  }

  /** The subchannel has no pool row, and its address or port is a sibling's. */
  ghost predicate SiblingOnly(d: PageData, res: Resources, info: InfoMap, id: int)
    requires d.PageData?
  {
    && id in info && id !in ListedIds(d.pools)
    && (info[id].target in SiblingAddresses(res) || PortFromHostPort(info[id].target) in DnsPorts(res.clusters))
  }

  /** Pool rows, orphans and exclusions split the subchannels, and pools do not overlap; a
      subchannel without a pool row is excluded if and only if a sibling accounts for it. */
  lemma SubchannelsPartitioned(d: PageData, res: Resources, c: Cluster, byAddr: ByAddress, info: InfoMap)
    requires IsPage(d, res, c, byAddr, info)
    ensures ListedIds(d.pools) !! UnmatchedIds(d.unmatched) !! ExcludedIds(res, c, byAddr, info)
    ensures ListedIds(d.pools) + UnmatchedIds(d.unmatched) + ExcludedIds(res, c, byAddr, info) == info.Keys
    ensures SeparateRows(d.pools, info)
    ensures CountSum(d.pools) + |d.unmatched| + |ExcludedIds(res, c, byAddr, info)| == |info|
    ensures forall id :: id in ExcludedIds(res, c, byAddr, info) <==> SiblingOnly(d, res, info, id)
  {
    PoolsListMatched(d, res, c, byAddr, info);
    UnmatchedListed(d, res, c, byAddr, info);
    ThreeParts(info.Keys, MatchedIds(res, c, byAddr, info), OrphanIds(res, c, byAddr, info));
  }

  lemma PoolsListMatched(d: PageData, res: Resources, c: Cluster, byAddr: ByAddress, info: InfoMap)
    requires IsPage(d, res, c, byAddr, info)
    ensures SeparateRows(d.pools, info)
    ensures ListedIds(d.pools) == MatchedIds(res, c, byAddr, info)
    ensures CountSum(d.pools) == |MatchedIds(res, c, byAddr, info)|
  {
    ListedExactly(d.pools, MatchedIds(res, c, byAddr, info), info);
    ListingSums(d.pools, MatchedIds(res, c, byAddr, info), info, Started);
    ListingSeparate(d.pools, MatchedIds(res, c, byAddr, info), info);
  }

  /** No id is claimed that the pool loop would skip for lack of info, whatever ids the
      responses carried. */
  lemma PoolLoopSkipsNothing(res: Resources, c: Cluster, results: seq<Fetched>, byAddr: ByAddress, info: InfoMap)
    requires IsIndex(results, byAddr, info)
    ensures ClaimedIds(EndpointsOf(OwnLocalities(res, c)), byAddr) <= info.Keys
  {
    var own := EndpointsOf(OwnLocalities(res, c));
    forall id | id in ClaimedIds(own, byAddr) ensures id in info {
      var e :| e in own && FormatEndpoint(e) in byAddr && id in byAddr[FormatEndpoint(e)];
      ClassesHaveInfo(results, byAddr, info, FormatEndpoint(e), id);
    }
  }

  // ----- Who is attributed to whom, by addresses, ports and discovery types -----

  predicate IsDnsKind(kind: DiscoveryType) { kind == StrictDns || kind == LogicalDns }

  /** The endpoint accounts for the target: it prints it, or its DNS cluster's port is the target's. */
  ghost predicate AccountsFor(kind: DiscoveryType, e: Endpoint, target: string) {
    FormatEndpoint(e) == target || (IsDnsKind(kind) && HasPortOf(e, target))
  }

  ghost predicate HasPortOf(e: Endpoint, target: string) {
    e.address.Some? && e.address.value.port != 0 && e.address.value.port == PortFromHostPort(target)
  }

  /** The pools list exactly the subchannels that some endpoint of the cluster accounts for. */
  lemma ListedExactlyWhenAccounted(d: PageData, res: Resources, c: Cluster, byAddr: ByAddress, info: InfoMap, id: int)
    requires Indexed(byAddr, info) && IsPage(d, res, c, byAddr, info) && id in info
    ensures id in ListedIds(d.pools) <==>
      exists e :: e in EndpointsOf(OwnLocalities(res, c)) && AccountsFor(c.kind, e, info[id].target)
  {
    PoolsListMatched(d, res, c, byAddr, info);
    var own := EndpointsOf(OwnLocalities(res, c));
    if id in ClaimedIds(own, byAddr) {
      var e :| e in own && FormatEndpoint(e) in byAddr && id in byAddr[FormatEndpoint(e)];
      assert AccountsFor(c.kind, e, info[id].target);
    }
    if IsDns(c) && PortFromHostPort(info[id].target) in PortsOf(own) {
      var e :| e in own && PortOf(e) != 0 && PortOf(e) == PortFromHostPort(info[id].target);
      assert AccountsFor(c.kind, e, info[id].target);
    }
    if e :| e in own && AccountsFor(c.kind, e, info[id].target) {
      assert FormatEndpoint(e) == info[id].target ==> id in ClaimedIds(own, byAddr);
      assert HasPortOf(e, info[id].target) ==> PortOf(e) in PortsOf(own);
    }
  }

  /** An endpoint of some EDS resource, or an inline one of a DNS cluster. */
  ghost predicate InEds(res: Resources, e: Endpoint) {
    exists name :: name in res.endpoints && e in EndpointsOf(res.endpoints[name].localities)
  }

  ghost predicate InDnsCluster(res: Resources, e: Endpoint) {
    exists name :: name in res.clusters && IsDnsKind(res.clusters[name].kind)
      && res.clusters[name].inline.Some? && e in EndpointsOf(res.clusters[name].inline.value.localities)
  }

  /** Unclaimed is what no endpoint of EDS prints and no port of a DNS cluster matches. */
  lemma UnclaimedExactly(res: Resources, info: InfoMap, id: int)
    requires id in info
    ensures id in UnclaimedIds(res, info) <==>
      && (forall e | InEds(res, e) && e.address.Some? :: FormatEndpoint(e) != info[id].target)
      && (forall e | InDnsCluster(res, e) :: !HasPortOf(e, info[id].target))
  {
    var target := info[id].target;
    forall e: Endpoint ensures FormatEndpoint(e) == "" <==> e.address.None? {
      OnlyMissingIsEmpty(e.address);
    }
    if target in SiblingAddresses(res) {
      var name, e :| name in res.endpoints && e in EndpointsOf(res.endpoints[name].localities)
                     && FormatEndpoint(e) != "" && FormatEndpoint(e) == target;
      assert InEds(res, e);
    }
    if PortFromHostPort(target) in DnsPorts(res.clusters) {
      var name :| name in res.clusters && IsDns(res.clusters[name])
                  && PortFromHostPort(target) in PortsOf(InlineEndpoints(res.clusters[name]));
      var e :| e in InlineEndpoints(res.clusters[name]) && PortOf(e) != 0 && PortOf(e) == PortFromHostPort(target);
      assert InDnsCluster(res, e);
    }
    forall e | InDnsCluster(res, e) && HasPortOf(e, target) ensures PortFromHostPort(target) in DnsPorts(res.clusters) {
      var name :| name in res.clusters && IsDnsKind(res.clusters[name].kind)
        && res.clusters[name].inline.Some? && e in EndpointsOf(res.clusters[name].inline.value.localities);
      assert PortOf(e) in PortsOf(InlineEndpoints(res.clusters[name]));
    }
  }

  // ----- Cluster pools refine the channel's pools -----

  lemma MatchedWholeClasses(res: Resources, c: Cluster, byAddr: ByAddress, info: InfoMap)
    requires Indexed(byAddr, info)
    ensures WholeClasses(MatchedIds(res, c, byAddr, info), info)
  {
    var own := EndpointsOf(OwnLocalities(res, c));
    forall x, y | x in MatchedIds(res, c, byAddr, info) && y in info && info[x].target == info[y].target
      ensures y in MatchedIds(res, c, byAddr, info) {
      if x in ClaimedIds(own, byAddr) {
        var e :| e in own && FormatEndpoint(e) in byAddr && x in byAddr[FormatEndpoint(e)];
        assert y in byAddr[FormatEndpoint(e)];
      }
    }
  }

  /** The cluster's pools are the channel's pools of the matched addresses: same rows, same order. */
  lemma ClusterPoolsRefineChannelPools(d: PageData, channel: seq<PoolRow>, res: Resources, c: Cluster,
                                       byAddr: ByAddress, info: InfoMap)
    requires Indexed(byAddr, info)
    requires IsPage(d, res, c, byAddr, info) && IsChannelListing(channel, byAddr, info)
    ensures d.pools == AtAddresses(channel, Targets(MatchedIds(res, c, byAddr, info), info))
  {
    ChannelListingListsAll(channel, byAddr, info);
    MatchedWholeClasses(res, c, byAddr, info);
    WholeClassesListing(channel, d.pools, MatchedIds(res, c, byAddr, info), info);
  }

  /** An endpoint row shows the smallest id and the size of the pool at its address, and that
      pool is on the page. */
  lemma EndpointRowMatchesPool(d: PageData, res: Resources, c: Cluster, byAddr: ByAddress, info: InfoMap,
                               group: LocalityGroup, row: EndpointRow)
    requires Indexed(byAddr, info) && IsPage(d, res, c, byAddr, info)
    requires group in d.localities && row in group.rows && row.address in byAddr
    ensures exists pool :: pool in d.pools && pool.address == row.address
              && row.poolSize == pool.count && row.subchannelId == pool.ids[0]
              && row.started == pool.started && row.failed == pool.failed
              && forall id | id in pool.ids :: row.subchannelId <= id
  {
    var e := RowComesFromEndpoint(d, res, c, byAddr, info, group, row);
    var own, matched := EndpointsOf(OwnLocalities(res, c)), MatchedIds(res, c, byAddr, info);
    var ids := byAddr[row.address];
    forall id | id in ids ensures id in matched {
      assert id in ClaimedIds(own, byAddr);
    }
    PoolOfClass(d.pools, matched, byAddr, info, row.address);
    var pool :| pool in d.pools && pool.address == row.address && pool.ids == ids && RowSums(pool, info);
    forall id | id in pool.ids ensures ids[0] <= id {
      var i :| 0 <= i < |ids| && ids[i] == id;
    }
  }

  /** A class that is matched as a whole is a pool row. */
  lemma PoolOfClass(pools: seq<PoolRow>, matched: set<int>, byAddr: ByAddress, info: InfoMap, a: string)
    requires Indexed(byAddr, info) && matched <= info.Keys && IsPoolListing(pools, matched, info)
    requires a in byAddr && forall id | id in byAddr[a] :: id in matched
    ensures exists pool :: pool in pools && pool.address == a && pool.ids == byAddr[a] && RowSums(pool, info)
  {
    var ids := byAddr[a];
    assert ids[0] in ids;
    assert HasAddress(pools, info[ids[0]].target);
    var pool :| pool in pools && pool.address == a;
    assert IsPool(pool, matched, info);
    IntListingUnique(pool.ids, ids);
  }

  lemma RowComesFromEndpoint(d: PageData, res: Resources, c: Cluster, byAddr: ByAddress, info: InfoMap,
                             group: LocalityGroup, row: EndpointRow) returns (e: Endpoint)
    requires IsPage(d, res, c, byAddr, info) && group in d.localities && row in group.rows
    ensures e in EndpointsOf(OwnLocalities(res, c)) && row == RowOf(e, group.locality, byAddr, info)
  {
    var ls := OwnLocalities(res, c);
    var groups := GroupsOf(ls, byAddr, info);
    assert group in multiset(d.localities);
    assert group in multiset(groups);
    var n :| 0 <= n < |groups| && groups[n] == group;
    var i :| 0 <= i < |group.rows| && group.rows[i] == row;
    e := ls[n].endpoints[i];
    EndpointListed(ls, n, i);
  }

  lemma {:induction false} EndpointListed(ls: seq<LocalityEndpoints>, n: nat, i: nat)
    requires n < |ls| && i < |ls[n].endpoints|
    ensures ls[n].endpoints[i] in EndpointsOf(ls)
  {
    var last := |ls| - 1;
    if n < last {
      EndpointListed(ls[..last], n, i);
    }
  }

  // ----- Calls are conserved between the two tables -----

  /** The exact sum of one column of the locality totals. */
  function GrandTotal(groups: seq<LocalityGroup>, k: Counter): int {
    if groups == [] then 0
    else GrandTotal(groups[..|groups| - 1], k) + GroupCalls(groups[|groups| - 1], k)
  }

  function GroupCalls(g: LocalityGroup, k: Counter): Int64 {
    if k.Failed? then g.failed else g.started
  }

  /** Calls of the subchannels at each endpoint's address, counted once for each endpoint. */
  function EndpointsTotal(eps: seq<Endpoint>, byAddr: ByAddress, info: InfoMap, k: Counter): int {
    if eps == [] then 0
    else
      var addr := FormatEndpoint(eps[|eps| - 1]);
      EndpointsTotal(eps[..|eps| - 1], byAddr, info, k) + if addr in byAddr then Total(byAddr[addr], info, k) else 0
  }

  ghost predicate DistinctEndpoints(eps: seq<Endpoint>) {
    forall i, j | 0 <= i < j < |eps| :: FormatEndpoint(eps[i]) != FormatEndpoint(eps[j])
  }

  lemma {:induction false} EndpointsTotalTogether(a: seq<Endpoint>, b: seq<Endpoint>, byAddr: ByAddress,
                                                  info: InfoMap, k: Counter)
    ensures EndpointsTotal(a + b, byAddr, info, k)
         == EndpointsTotal(a, byAddr, info, k) + EndpointsTotal(b, byAddr, info, k)
  {
    if b == [] {
      assert a + b == a;
    } else {
      var n := |b| - 1;
      assert (a + b)[..|a + b| - 1] == a + b[..n];
      EndpointsTotalTogether(a, b[..n], byAddr, info, k);
    }
  }

  lemma LastRow(eps: seq<Endpoint>, locality: string, byAddr: ByAddress, info: InfoMap, k: Counter)
    requires eps != [] && k != Succeeded
    ensures var n := |eps| - 1;
      && RowsTotal(RowsOf(eps, locality, byAddr, info), k)
         == RowsTotal(RowsOf(eps[..n], locality, byAddr, info), k)
            + EndpointCalls(RowOf(eps[n], locality, byAddr, info), k)
  {
    var rows := RowsOf(eps, locality, byAddr, info);
    assert rows[..|eps| - 1] == RowsOf(eps[..|eps| - 1], locality, byAddr, info);
  }

  /** The wrapped total of a locality's rows is that of its endpoints. */
  lemma {:induction false} RowsAddUp(eps: seq<Endpoint>, locality: string, byAddr: ByAddress, info: InfoMap, k: Counter)
    requires k != Succeeded
    ensures Wrap64(RowsTotal(RowsOf(eps, locality, byAddr, info), k))
         == Wrap64(EndpointsTotal(eps, byAddr, info, k))
  {
    if eps != [] {
      var n := |eps| - 1;
      var addr := FormatEndpoint(eps[n]);
      var calls := if addr in byAddr then Total(byAddr[addr], info, k) else 0;
      RowsAddUp(eps[..n], locality, byAddr, info, k);
      LastRow(eps, locality, byAddr, info, k);
      WrapStep(RowsTotal(RowsOf(eps[..n], locality, byAddr, info), k), EndpointsTotal(eps[..n], byAddr, info, k),
               RowsTotal(RowsOf(eps, locality, byAddr, info), k), EndpointsTotal(eps, byAddr, info, k), calls);
    }
  }

  lemma LastGroup(ls: seq<LocalityEndpoints>, byAddr: ByAddress, info: InfoMap, k: Counter)
    requires ls != [] && k != Succeeded
    ensures var n := |ls| - 1;
      && GrandTotal(GroupsOf(ls, byAddr, info), k)
         == GrandTotal(GroupsOf(ls[..n], byAddr, info), k) + GroupCalls(GroupOf(ls[n], byAddr, info), k)
      && GroupCalls(GroupOf(ls[n], byAddr, info), k) == Wrap64(EndpointsTotal(ls[n].endpoints, byAddr, info, k))
      && EndpointsTotal(EndpointsOf(ls), byAddr, info, k)
         == EndpointsTotal(EndpointsOf(ls[..n]), byAddr, info, k) + EndpointsTotal(ls[n].endpoints, byAddr, info, k)
  {
    var n := |ls| - 1;
    assert GroupsOf(ls, byAddr, info)[..n] == GroupsOf(ls[..n], byAddr, info);
    RowsAddUp(ls[n].endpoints, ls[n].locality, byAddr, info, k);
    EndpointsTotalTogether(EndpointsOf(ls[..n]), ls[n].endpoints, byAddr, info, k);
  }

  lemma {:induction false} GroupsAddUp(ls: seq<LocalityEndpoints>, byAddr: ByAddress, info: InfoMap, k: Counter)
    requires k != Succeeded
    ensures Wrap64(GrandTotal(GroupsOf(ls, byAddr, info), k))
         == Wrap64(EndpointsTotal(EndpointsOf(ls), byAddr, info, k))
  {
    if ls != [] {
      var n := |ls| - 1;
      GroupsAddUp(ls[..n], byAddr, info, k);
      LastGroup(ls, byAddr, info, k);
      WrapStep(GrandTotal(GroupsOf(ls[..n], byAddr, info), k),
               EndpointsTotal(EndpointsOf(ls[..n]), byAddr, info, k),
               GrandTotal(GroupsOf(ls, byAddr, info), k), EndpointsTotal(EndpointsOf(ls), byAddr, info, k),
               EndpointsTotal(ls[n].endpoints, byAddr, info, k));
    }
  }

  lemma {:induction false} GrandTotalWithout(groups: seq<LocalityGroup>, i: nat, k: Counter)
    requires i < |groups|
    ensures GrandTotal(groups, k) == GrandTotal(groups[..i] + groups[i + 1..], k) + GroupCalls(groups[i], k)
  {
    var n := |groups| - 1;
    if i == n {
      assert groups[..i] + groups[i + 1..] == groups[..n];
    } else {
      GrandTotalWithout(groups[..n], i, k);
      var rest, shorter := groups[..i] + groups[i + 1..], groups[..n][..i] + groups[..n][i + 1..];
      assert rest[..|rest| - 1] == shorter && rest[|rest| - 1] == groups[n];
      assert GrandTotal(rest, k) == GrandTotal(shorter, k) + GroupCalls(groups[n], k);
    }
  }

  lemma SameRest(a: seq<LocalityGroup>, b: seq<LocalityGroup>, i: nat)
    requires multiset(a) == multiset(b) && a != [] && i < |b| && b[i] == a[|a| - 1]
    ensures multiset(a[..|a| - 1]) == multiset(b[..i] + b[i + 1..])
  {
    var n := |a| - 1;
    WithoutPlace(a, n);
    WithoutPlace(b, i);
    assert a[..n] + a[n + 1..] == a[..n];
  }

  /** The order of the localities does not matter to their sum. */
  lemma {:induction false} GrandTotalOrderFree(a: seq<LocalityGroup>, b: seq<LocalityGroup>, k: Counter)
    requires multiset(a) == multiset(b)
    ensures GrandTotal(a, k) == GrandTotal(b, k)
  {
    if a == [] {
      assert |multiset(b)| == 0;
    } else {
      var n := |a| - 1;
      assert a[n] in multiset(a);
      assert a[n] in multiset(b);
      var i :| 0 <= i < |b| && b[i] == a[n];
      SameRest(a, b, i);
      GrandTotalOrderFree(a[..n], b[..i] + b[i + 1..], k);
      GrandTotalWithout(b, i, k);
    }
  }

  /** With one endpoint per address, the endpoints' classes are disjoint and add up. */
  lemma {:induction false} DistinctEndpointsAddUp(eps: seq<Endpoint>, byAddr: ByAddress, info: InfoMap, k: Counter)
    requires DistinctEndpoints(eps) && Indexed(byAddr, info)
    ensures EndpointsTotal(eps, byAddr, info, k) == SetTotal(ClaimedIds(eps, byAddr), info, k)
  {
    if eps != [] {
      var n := |eps| - 1;
      DistinctEndpointsAddUp(eps[..n], byAddr, info, k);
      ClaimedStep(eps, n, byAddr);
      assert eps[..n + 1] == eps;
      LastEndpointDisjoint(eps, byAddr, info);
      OneClaimTotal(eps[n], byAddr, info, k);
      SetTotalUnion(ClaimedIds(eps[..n], byAddr), ClaimedIds([eps[n]], byAddr), info, k);
    }
  }

  lemma OneClaimTotal(e: Endpoint, byAddr: ByAddress, info: InfoMap, k: Counter)
    requires Indexed(byAddr, info)
    ensures SetTotal(ClaimedIds([e], byAddr), info, k)
         == if FormatEndpoint(e) in byAddr then Total(byAddr[FormatEndpoint(e)], info, k) else 0
  {
    ClaimedByOne(e, byAddr);
    if FormatEndpoint(e) in byAddr {
      TotalOfSet(byAddr[FormatEndpoint(e)], info, k);
    }
  }

  lemma LastEndpointDisjoint(eps: seq<Endpoint>, byAddr: ByAddress, info: InfoMap)
    requires eps != [] && DistinctEndpoints(eps) && Indexed(byAddr, info)
    ensures ClaimedIds(eps[..|eps| - 1], byAddr) !! ClaimedIds([eps[|eps| - 1]], byAddr)
  {
    var n := |eps| - 1;
    var addr := FormatEndpoint(eps[n]);
    ClaimedByOne(eps[n], byAddr);
    if addr in byAddr {
      forall id | id in ClaimedIds(eps[..n], byAddr) ensures id !in byAddr[addr] {
        var e :| e in eps[..n] && FormatEndpoint(e) in byAddr && id in byAddr[FormatEndpoint(e)];
        var i :| 0 <= i < n && eps[i] == e;
        ClassesDisjoint(byAddr, info, FormatEndpoint(eps[i]), addr, id);
      }
    }
  }

  /** On an EDS cluster's page the two tables agree on the calls, also when sums wrap around. */
  lemma CallsConserved(d: PageData, res: Resources, c: Cluster, byAddr: ByAddress, info: InfoMap, k: Counter)
    requires !IsDns(c) && k != Succeeded && Indexed(byAddr, info)
    requires DistinctEndpoints(EndpointsOf(OwnLocalities(res, c)))
    requires IsPage(d, res, c, byAddr, info)
    ensures Wrap64(GrandTotal(d.localities, k)) == Wrap64(ColumnSum(d.pools, k))
  {
    PageTotals(d, res, c, byAddr, info, k);
    DistinctEndpointsAddUp(EndpointsOf(OwnLocalities(res, c)), byAddr, info, k);
  }

  /** The two tables of an EDS page, each in terms of the subchannels. */
  lemma PageTotals(d: PageData, res: Resources, c: Cluster, byAddr: ByAddress, info: InfoMap, k: Counter)
    requires !IsDns(c) && k != Succeeded && Indexed(byAddr, info)
    requires IsPage(d, res, c, byAddr, info)
    ensures var own := EndpointsOf(OwnLocalities(res, c));
      && Wrap64(GrandTotal(d.localities, k)) == Wrap64(EndpointsTotal(own, byAddr, info, k))
      && Wrap64(ColumnSum(d.pools, k)) == Wrap64(SetTotal(ClaimedIds(own, byAddr), info, k))
  {
    var ls := OwnLocalities(res, c);
    GrandTotalOrderFree(d.localities, GroupsOf(ls, byAddr, info), k);
    GroupsAddUp(ls, byAddr, info, k);
    ListingSums(d.pools, MatchedIds(res, c, byAddr, info), info, k);
    EdsMatchedByAddress(res, c, byAddr, info);
  }

  lemma EdsMatchedByAddress(res: Resources, c: Cluster, byAddr: ByAddress, info: InfoMap)
    requires !IsDns(c) && Indexed(byAddr, info)
    ensures MatchedIds(res, c, byAddr, info) == ClaimedIds(EndpointsOf(OwnLocalities(res, c)), byAddr)
  {
    assert ClaimedIds(EndpointsOf(OwnLocalities(res, c)), byAddr) <= info.Keys;
  }

  function Occurrences(eps: seq<Endpoint>, addr: string): nat {
    if eps == [] then 0
    else Occurrences(eps[..|eps| - 1], addr) + if FormatEndpoint(eps[|eps| - 1]) == addr then 1 else 0
  }

  lemma {:induction false} ProbeTotal(eps: seq<Endpoint>, addr: string, k: Counter)
    requires k != Succeeded
    ensures EndpointsTotal(eps, map[addr := [1]], Probe(addr), k) == Occurrences(eps, addr) <= |eps|
  {
    if eps != [] {
      ProbeTotal(eps[..|eps| - 1], addr, k);
      assert Total([1], Probe(addr), k) == 1;
    }
  }

  lemma {:induction false} OccursTwice(eps: seq<Endpoint>, i: nat, j: nat)
    requires i < j < |eps| && FormatEndpoint(eps[i]) == FormatEndpoint(eps[j])
    ensures Occurrences(eps, FormatEndpoint(eps[i])) >= 2
  {
    var n := |eps| - 1;
    if j < n {
      OccursTwice(eps[..n], i, j);
    } else {
      OccursOnce(eps[..n], i);
    }
  }

  lemma {:induction false} OccursOnce(eps: seq<Endpoint>, i: nat)
    requires i < |eps|
    ensures Occurrences(eps, FormatEndpoint(eps[i])) >= 1
  {
    var n := |eps| - 1;
    if i < n {
      OccursOnce(eps[..n], i);
    }
  }

  /** The page of an EDS cluster for the one subchannel at one of its addresses. */
  lemma ProbePage(res: Resources, c: Cluster, e: Endpoint)
    requires !IsDns(c) && e in EndpointsOf(OwnLocalities(res, c))
    ensures exists d :: IsPage(d, res, c, map[FormatEndpoint(e) := [1]], Probe(FormatEndpoint(e)))
  {
    var addr, ls := FormatEndpoint(e), OwnLocalities(res, c);
    var byAddr, info := map[addr := [1]], Probe(addr);
    StringOrder();
    SomeSorting(GroupsOf(ls, byAddr, info), LocalityLess);
    var localities :| IsSorting(localities, GroupsOf(ls, byAddr, info), LocalityLess);
    ProbeClaimed(EndpointsOf(ls), e);
    ProbeIndexed(addr);
    EdsMatchedByAddress(res, c, byAddr, info);
    ProbePool(addr);
    var d := PageData(false, EdsServiceName(c), localities, [PoolRow(addr, 1, [1], 1, 0, 1)], []);
    assert IsPage(d, res, c, byAddr, info);
  }

  lemma ProbePool(addr: string)
    ensures IsPoolListing([PoolRow(addr, 1, [1], 1, 0, 1)], {1}, Probe(addr))
  {
    var row, info := PoolRow(addr, 1, [1], 1, 0, 1), Probe(addr);
    forall k: Counter ensures Total([1], info, k) == Calls(info, 1, k) {
      assert [1][..0] == [];
      assert Total([1][..0], info, k) == 0;
    }
    assert Total([1], info, Started) == 1 && Total([1], info, Succeeded) == 0 && Total([1], info, Failed) == 1;
    assert RowSums(row, Probe(addr));
    assert IsPool(row, {1}, Probe(addr));
    assert row in [row];
  }

  ghost predicate TablesAgree(d: PageData, k: Counter)
    requires d.PageData?
  {
    Wrap64(GrandTotal(d.localities, k)) == Wrap64(ColumnSum(d.pools, k))
  }

  /** A page of the cluster on which the two tables disagree. */
  ghost predicate Disagrees(d: PageData, res: Resources, c: Cluster, byAddr: ByAddress, info: InfoMap, k: Counter) {
    Indexed(byAddr, info) && IsPage(d, res, c, byAddr, info) && !TablesAgree(d, k)
  }

  lemma ProbeTablesDiffer(d: PageData, res: Resources, c: Cluster, i: nat, j: nat, k: Counter)
    requires !IsDns(c) && k != Succeeded
    requires var own := EndpointsOf(OwnLocalities(res, c));
      |own| < 0x8000_0000_0000_0000 && i < j < |own| && FormatEndpoint(own[i]) == FormatEndpoint(own[j])
    requires var addr := FormatEndpoint(EndpointsOf(OwnLocalities(res, c))[i]);
      IsPage(d, res, c, map[addr := [1]], Probe(addr))
    ensures !TablesAgree(d, k)
  {
    var own := EndpointsOf(OwnLocalities(res, c));
    var addr := FormatEndpoint(own[i]);
    ProbeIndexed(addr);
    PageTotals(d, res, c, map[addr := [1]], Probe(addr), k);
    ProbeTotal(own, addr, k);
    OccursTwice(own, i, j);
    ProbeClaimed(own, own[i]);
    SetTotalSplit({1}, 1, Probe(addr), k);
    assert {1} - {1} == {};
  }

  /** For which EDS clusters the two tables agree whatever the subchannels are: exactly those
      without a repeated address. (A Go slice has fewer than 2^63 elements.) */
  lemma ConservedExactlyWhenDistinct(res: Resources, c: Cluster, k: Counter)
    requires !IsDns(c) && k != Succeeded && |EndpointsOf(OwnLocalities(res, c))| < 0x8000_0000_0000_0000
    ensures DistinctEndpoints(EndpointsOf(OwnLocalities(res, c))) <==>
      forall d, byAddr, info :: !Disagrees(d, res, c, byAddr, info, k)
  {
    var own := EndpointsOf(OwnLocalities(res, c));
    if DistinctEndpoints(own) {
      forall d, byAddr, info | Indexed(byAddr, info) && IsPage(d, res, c, byAddr, info) ensures TablesAgree(d, k) {
        CallsConserved(d, res, c, byAddr, info, k);
      }
    } else {
      var i, j :| 0 <= i < j < |own| && FormatEndpoint(own[i]) == FormatEndpoint(own[j]);
      var addr := FormatEndpoint(own[i]);
      ProbePage(res, c, own[i]);
      var d :| IsPage(d, res, c, map[addr := [1]], Probe(addr));
      ProbeTablesDiffer(d, res, c, i, j, k);
      ProbeIndexed(addr);
      assert Disagrees(d, res, c, map[addr := [1]], Probe(addr), k);
    }
  }

  // ----- Nothing depends on map iteration order or on the schedule -----

  /** Two pages of one snapshot have the same pools and orphans in the same order, and the same
      localities up to the order of those that share a name. */
  lemma PageDetermined(d: PageData, d': PageData, res: Resources, c: Cluster, byAddr: ByAddress, info: InfoMap)
    requires IsPage(d, res, c, byAddr, info) && IsPage(d', res, c, byAddr, info)
    ensures d.pools == d'.pools && d.unmatched == d'.unmatched
    ensures multiset(d.localities) == multiset(d'.localities)
  {
    PoolListingUnique(d.pools, d'.pools, MatchedIds(res, c, byAddr, info), info);
    UnmatchedListingUnique(d.unmatched, d'.unmatched, OrphanIds(res, c, byAddr, info), info);
  }

  /** What index a finished fan-out over these replies may leave. */
  ghost predicate FannedOut(replies: WorkerPool.Replies, refs: seq<nat>, byAddr: ByAddress, info: InfoMap) {
    && WorkerPool.IsOutcome(replies, refs)
    && (WorkerPool.AllAnswered(replies, refs) ==> IsIndex(WorkerPool.ResultsOf(replies, refs), byAddr, info))
  }

  /** From the RPC answers to the page: however the workers were scheduled and the maps were
      iterated, a cluster page lists the same pools and orphans. */
  lemma PageScheduleIndependent(replies: WorkerPool.Replies, res: Resources, c: Cluster,
                                refs: seq<nat>, byAddr: ByAddress, info: InfoMap, d: PageData,
                                refs': seq<nat>, byAddr': ByAddress, info': InfoMap, d': PageData)
    requires WorkerPool.DistinctAnswers(replies)
    requires FannedOut(replies, refs, byAddr, info) && IsPage(d, res, c, byAddr, info)
    requires FannedOut(replies, refs', byAddr', info') && IsPage(d', res, c, byAddr', info')
    ensures d.pools == d'.pools && d.unmatched == d'.unmatched
  {
    WorkerPool.ScheduleIndependent(replies, refs, byAddr, info, refs', byAddr', info');
    PageDetermined(d, d', res, c, byAddr, info);
  }
}
