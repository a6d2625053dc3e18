/** The cluster page: a cluster's configured endpoints joined with a channel's subchannels. */
module ClusterPage {
  import opened Prelude
  import opened Sorting
  import opened HostPort
  import opened Xds
  import opened Subchannels
  import opened Pools

  datatype EndpointRow = EndpointRow(
    address: string, health: string, weight: UInt32, locality: string,
    subchannelId: int,           // 0 means no match
    subchannelName: string, poolSize: nat, started: Int64, failed: Int64)

  datatype LocalityGroup = LocalityGroup(
    locality: string, priority: UInt32, weight: UInt32,
    rows: seq<EndpointRow>, started: Int64, failed: Int64)

  datatype UnmatchedRow = UnmatchedRow(id: int, name: string, target: string)

  datatype PageData =
    | StatusError
    | NoSuchCluster
    | PageData(isDns: bool, edsServiceName: string, localities: seq<LocalityGroup>,
               pools: seq<PoolRow>, unmatched: seq<UnmatchedRow>)

  // ----- What the page is about -----

  function OwnLocalities(res: Resources, c: Cluster): seq<LocalityEndpoints> {
    if IsDns(c) then (if c.inline.Some? then c.inline.value.localities else [])
    else if EdsServiceName(c) in res.endpoints then res.endpoints[EdsServiceName(c)].localities
    else []
  }

  ghost function PortsOf(eps: seq<Endpoint>): set<UInt32> {
    set e | e in eps && PortOf(e) != 0 :: PortOf(e)
  }

  /** Ids in the class of some endpoint's address. */
  ghost function ClaimedIds(eps: seq<Endpoint>, byAddr: ByAddress): set<int> {
    set e, id | e in eps && FormatEndpoint(e) in byAddr && id in byAddr[FormatEndpoint(e)] :: id
  }

  /** Ids whose target port is among the ports; a target without a port never is. */
  ghost function IdsByPort(ports: set<UInt32>, info: InfoMap): set<int> {
    set id | id in info && PortFromHostPort(info[id].target) in ports
  }

  /** The subchannels attributed to the cluster: by port for a DNS cluster, by address for all. */
  ghost function MatchedIds(res: Resources, c: Cluster, byAddr: ByAddress, info: InfoMap): set<int> {
    var own := EndpointsOf(OwnLocalities(res, c));
    (IdsByPort(if IsDns(c) then PortsOf(own) else {}, info) + ClaimedIds(own, byAddr)) * info.Keys
  }

  /** Every address printed by some EDS resource. */
  ghost function SiblingAddresses(res: Resources): set<string> {
    set name, e | name in res.endpoints && e in EndpointsOf(res.endpoints[name].localities)
                  && FormatEndpoint(e) != "" :: FormatEndpoint(e)
  }

  /** Every port configured on some DNS cluster. */
  ghost function DnsPorts(clusters: map<string, Cluster>): set<UInt32> {
    set name, p | name in clusters && IsDns(clusters[name]) && p in PortsOf(InlineEndpoints(clusters[name])) :: p
  }

  /** The ids left over by the three exclusions of the orphan list. */
  ghost function Leftover(matched: set<int>, siblings: set<string>, dnsPorts: set<UInt32>, info: InfoMap): set<int> {
    set id | id in info && id !in matched && info[id].target !in siblings
             && PortFromHostPort(info[id].target) !in dnsPorts
  }

  ghost function OrphanIds(res: Resources, c: Cluster, byAddr: ByAddress, info: InfoMap): set<int> {
    Leftover(MatchedIds(res, c, byAddr, info), SiblingAddresses(res), DnsPorts(res.clusters), info)
  }

  /** Subchannels that no cluster of the dump accounts for, whichever page is viewed. */
  ghost function UnclaimedIds(res: Resources, info: InfoMap): set<int> {
    Leftover({}, SiblingAddresses(res), DnsPorts(res.clusters), info)
  }

  predicate UnmatchedLess(a: UnmatchedRow, b: UnmatchedRow) { a.id < b.id }

  /** The rows of ids in id order, each with the name and target of its subchannel. */
  ghost predicate IsUnmatchedListing(rows: seq<UnmatchedRow>, ids: set<int>, info: InfoMap)
    requires ids <= info.Keys
  {
    && Ascending(rows, UnmatchedLess)
    && (forall row :: row in rows <==> row.id in ids && IsRowFor(row, info[row.id]))
  }

  ghost predicate IsRowFor(row: UnmatchedRow, si: SubchannelInfo) {
    row.name == si.name && row.target == si.target
  }

  function RowOf(e: Endpoint, locality: string, byAddr: ByAddress, info: InfoMap): EndpointRow {
    var addr := FormatEndpoint(e);
    if addr in byAddr && byAddr[addr] != [] then
      var ids := byAddr[addr];
      EndpointRow(addr, e.health, e.weight, locality, ids[0],
                  if ids[0] in info then info[ids[0]].name else "", |ids|,
                  Wrap64(Total(ids, info, Started)), Wrap64(Total(ids, info, Failed)))
    else
      EndpointRow(addr, e.health, e.weight, locality, 0, "", 0, 0, 0)
  }

  function EndpointCalls(row: EndpointRow, k: Counter): Int64 {
    if k.Failed? then row.failed else row.started
  }

  function RowsTotal(rows: seq<EndpointRow>, k: Counter): int {
    if rows == [] then 0 else RowsTotal(rows[..|rows| - 1], k) + EndpointCalls(rows[|rows| - 1], k)
  }

  function RowsOf(eps: seq<Endpoint>, locality: string, byAddr: ByAddress, info: InfoMap): seq<EndpointRow> {
    seq(|eps|, i requires 0 <= i < |eps| => RowOf(eps[i], locality, byAddr, info))
  }

  function GroupOf(l: LocalityEndpoints, byAddr: ByAddress, info: InfoMap): LocalityGroup {
    var rows := RowsOf(l.endpoints, l.locality, byAddr, info);
    LocalityGroup(l.locality, l.priority, l.weight, rows,
                  Wrap64(RowsTotal(rows, Started)), Wrap64(RowsTotal(rows, Failed)))
  }

  function GroupsOf(ls: seq<LocalityEndpoints>, byAddr: ByAddress, info: InfoMap): seq<LocalityGroup> {
    seq(|ls|, i requires 0 <= i < |ls| => GroupOf(ls[i], byAddr, info))
  }

  predicate LocalityLess(a: LocalityGroup, b: LocalityGroup) { StringLess(a.locality, b.locality) }

  /** d is the page of cluster c for this dump and these subchannels. */
  ghost predicate IsPage(d: PageData, res: Resources, c: Cluster, byAddr: ByAddress, info: InfoMap) {
    && d.PageData?
    && d.isDns == IsDns(c) && d.edsServiceName == EdsServiceName(c)
    && Sorted(d.localities, LocalityLess)
    && multiset(d.localities) == multiset(GroupsOf(OwnLocalities(res, c), byAddr, info))
    && IsUnmatchedListing(d.unmatched, OrphanIds(res, c, byAddr, info), info)
    && IsPoolListing(d.pools, MatchedIds(res, c, byAddr, info), info)
  }

  // ----- Computing it -----

  lemma EndpointsStep(ls: seq<LocalityEndpoints>, n: nat)
    requires n < |ls|
    ensures EndpointsOf(ls[..n + 1]) == EndpointsOf(ls[..n]) + ls[n].endpoints
  {
    assert ls[..n + 1][..n] == ls[..n];
  }

  /** The non-zero ports of an assignment, added to those already collected. */
  method CollectPorts(ls: seq<LocalityEndpoints>, before: set<UInt32>) returns (out: set<UInt32>)
    ensures out == before + PortsOf(EndpointsOf(ls))
  {
    out := before;
    for n := 0 to |ls|
      invariant out == before + PortsOf(EndpointsOf(ls[..n]))
    {
      EndpointsStep(ls, n);
      var eps := ls[n].endpoints;
      ghost var done := EndpointsOf(ls[..n]);
      for i := 0 to |eps|
        invariant out == before + PortsOf(done + eps[..i])
      {
        assert done + eps[..i + 1] == (done + eps[..i]) + [eps[i]];
        var p := PortOf(eps[i]);
        if p != 0 {
          out := out + {p};
        }
      }
      assert eps[..|eps|] == eps;
    }
    assert ls[..|ls|] == ls;
  }

  /** Ports of STRICT_DNS and LOGICAL_DNS clusters, in whatever order the map yields them. */
  method StrictDnsPorts(clusters: map<string, Cluster>) returns (out: set<UInt32>)
    ensures out == DnsPorts(clusters)
  {
    out := {};
    var pending := clusters.Keys;
    while pending != {}
      invariant pending <= clusters.Keys
      invariant out == DnsPorts(map name | name in clusters && name !in pending :: clusters[name])
      decreases |pending|
    {
      var name := NextKey(pending);
      var c := clusters[name];
      ghost var before := map n | n in clusters && n !in pending :: clusters[n];
      pending := pending - {name};
      ghost var after := map n | n in clusters && n !in pending :: clusters[n];
      assert after == before[name := c];
      DnsPortsOfOneMore(before, name, c);
      if IsDns(c) {
        out := CollectPorts(if c.inline.Some? then c.inline.value.localities else [], out);
      }
    }
    assert clusters == map name | name in clusters && name !in pending :: clusters[name];
  }

  lemma DnsPortsOfOneMore(before: map<string, Cluster>, name: string, c: Cluster)
    requires name !in before
    ensures DnsPorts(before[name := c]) == DnsPorts(before) + if IsDns(c) then PortsOf(InlineEndpoints(c)) else {}
  {
    var after := before[name := c];
    forall p | p in DnsPorts(before) ensures p in DnsPorts(after) {
      var n :| n in before && IsDns(before[n]) && p in PortsOf(InlineEndpoints(before[n]));
      assert n in after && after[n] == before[n];
    }
    assert name in after && after[name] == c;
  }

  /** Every address of every EDS resource except the empty one. */
  method CollectSiblings(endpoints: map<string, Assignment>) returns (out: set<string>)
    ensures out == SiblingAddresses(Resources(map[], map[], endpoints))
  {
    out := {};
    var pending := endpoints.Keys;
    while pending != {}
      invariant pending <= endpoints.Keys
      invariant forall a :: a in out <==> IsAddressOfSome(a, endpoints, endpoints.Keys - pending)
      decreases |pending|
    {
      var name := NextKey(pending);
      ghost var done := endpoints.Keys - pending;
      pending := pending - {name};
      out := CollectAddresses(endpoints[name].localities, out);
      assert endpoints.Keys - pending == done + {name};
    }
    assert endpoints.Keys - pending == endpoints.Keys;
    forall a ensures a in out <==> a in SiblingAddresses(Resources(map[], map[], endpoints)) {
      if a in SiblingAddresses(Resources(map[], map[], endpoints)) {
        var name, e :| name in endpoints && e in EndpointsOf(endpoints[name].localities)
                       && FormatEndpoint(e) != "" && FormatEndpoint(e) == a;
        assert IsAddressOf(a, EndpointsOf(endpoints[name].localities));
      }
    }
  }

  ghost predicate IsAddressOfSome(a: string, endpoints: map<string, Assignment>, names: set<string>)
    requires names <= endpoints.Keys
  {
    exists name :: name in names && IsAddressOf(a, EndpointsOf(endpoints[name].localities))
  }

  ghost predicate IsAddressOf(a: string, eps: seq<Endpoint>) {
    a != "" && exists e :: e in eps && FormatEndpoint(e) == a
  }

  method CollectAddresses(ls: seq<LocalityEndpoints>, before: set<string>) returns (out: set<string>)
    ensures forall a :: a in out <==> a in before || IsAddressOf(a, EndpointsOf(ls))
  {
    out := before;
    for n := 0 to |ls|
      invariant forall a :: a in out <==> a in before || IsAddressOf(a, EndpointsOf(ls[..n]))
    {
      EndpointsStep(ls, n);
      var eps := ls[n].endpoints;
      ghost var done := EndpointsOf(ls[..n]);
      for i := 0 to |eps|
        invariant forall a :: a in out <==> a in before || IsAddressOf(a, done + eps[..i])
      {
        assert done + eps[..i + 1] == (done + eps[..i]) + [eps[i]];
        forall a ensures IsAddressOf(a, done + eps[..i + 1])
          <==> IsAddressOf(a, done + eps[..i]) || (a != "" && a == FormatEndpoint(eps[i])) {
        }
        var addr := FormatEndpoint(eps[i]);
        if addr != "" {
          out := out + {addr};
        }
      }
      assert eps[..|eps|] == eps;
    }
    assert ls[..|ls|] == ls;
  }

  method NewEndpointRow(e: Endpoint, locality: string, byAddr: ByAddress, info: InfoMap)
    returns (row: EndpointRow, claimed: set<int>)
    ensures row == RowOf(e, locality, byAddr, info)
    ensures claimed == ClaimedIds([e], byAddr)
  {
    var addr := FormatEndpoint(e);
    row, claimed := EndpointRow(addr, e.health, e.weight, locality, 0, "", 0, 0, 0), {};
    if addr in byAddr && |byAddr[addr]| > 0 {
      var ids := byAddr[addr];
      var started := SumCalls(ids, info, Started);
      var failed := SumCalls(ids, info, Failed);
      row := row.(subchannelId := ids[0],
                  subchannelName := if ids[0] in info then info[ids[0]].name else "",
                  poolSize := |ids|, started := started, failed := failed);
      claimed := set id | id in ids;
    }
    ClaimedByOne(e, byAddr);
  }

  lemma ClaimedByOne(e: Endpoint, byAddr: ByAddress)
    ensures ClaimedIds([e], byAddr) == if FormatEndpoint(e) in byAddr then ToSet(byAddr[FormatEndpoint(e)]) else {}
  {
    var addr := FormatEndpoint(e);
    assert e in [e];
    if addr in byAddr {
      forall id | id in byAddr[addr] ensures id in ClaimedIds([e], byAddr) {
      }
    }
  }

  lemma RowsTotalStep(rows: seq<EndpointRow>, row: EndpointRow, k: Counter)
    ensures Wrap64(Wrap64(RowsTotal(rows, k)) + EndpointCalls(row, k)) == Wrap64(RowsTotal(rows + [row], k))
  {
    assert (rows + [row])[..|rows|] == rows;
    WrapAbsorbs(RowsTotal(rows, k), EndpointCalls(row, k));
  }

  lemma ClaimedStep(eps: seq<Endpoint>, n: nat, byAddr: ByAddress)
    requires n < |eps|
    ensures ClaimedIds(eps[..n + 1], byAddr) == ClaimedIds(eps[..n], byAddr) + ClaimedIds([eps[n]], byAddr)
  {
    assert eps[..n + 1] == eps[..n] + [eps[n]];
  }

  /** One locality: its rows, its wrapped totals, and the subchannels it claims. */
  method NewLocalityGroup(l: LocalityEndpoints, byAddr: ByAddress, info: InfoMap)
    returns (group: LocalityGroup, claimed: set<int>)
    ensures group == GroupOf(l, byAddr, info)
    ensures claimed == ClaimedIds(l.endpoints, byAddr)
  {
    var rows, started, failed := [], 0, 0;
    claimed := {};
    for n := 0 to |l.endpoints|
      invariant rows == RowsOf(l.endpoints[..n], l.locality, byAddr, info)
      invariant started == Wrap64(RowsTotal(rows, Started))
      invariant failed == Wrap64(RowsTotal(rows, Failed))
      invariant claimed == ClaimedIds(l.endpoints[..n], byAddr)
    {
      var row, ids := NewEndpointRow(l.endpoints[n], l.locality, byAddr, info);
      ClaimedStep(l.endpoints, n, byAddr);
      claimed := claimed + ids;
      rows, started, failed := AppendRow(rows, row, started, failed);
    }
    assert l.endpoints[..|l.endpoints|] == l.endpoints;
    group := LocalityGroup(l.locality, l.priority, l.weight, rows, started, failed);
  }

  /** Append a row and add its calls to the running totals. */
  method AppendRow(rows: seq<EndpointRow>, row: EndpointRow, started: Int64, failed: Int64)
    returns (rows': seq<EndpointRow>, started': Int64, failed': Int64)
    requires started == Wrap64(RowsTotal(rows, Started)) && failed == Wrap64(RowsTotal(rows, Failed))
    ensures rows' == rows + [row]
    ensures started' == Wrap64(RowsTotal(rows', Started)) && failed' == Wrap64(RowsTotal(rows', Failed))
  {
    RowsTotalStep(rows, row, Started);
    RowsTotalStep(rows, row, Failed);
    rows' := rows + [row];
    started', failed' := Wrap64(started + row.started), Wrap64(failed + row.failed);
  }

  method JoinLocalities(ls: seq<LocalityEndpoints>, byAddr: ByAddress, info: InfoMap)
    returns (groups: seq<LocalityGroup>, claimed: set<int>)
    ensures groups == GroupsOf(ls, byAddr, info)
    ensures claimed == ClaimedIds(EndpointsOf(ls), byAddr)
  {
    groups, claimed := [], {};
    for n := 0 to |ls|
      invariant groups == GroupsOf(ls[..n], byAddr, info)
      invariant claimed == ClaimedIds(EndpointsOf(ls[..n]), byAddr)
    {
      var group, ids := NewLocalityGroup(ls[n], byAddr, info);
      EndpointsStep(ls, n);
      groups, claimed := groups + [group], claimed + ids;
    }
    assert ls[..|ls|] == ls;
  }

  method MatchByPort(ports: set<UInt32>, info: InfoMap) returns (matched: set<int>)
    ensures matched == IdsByPort(ports, info)
  {
    matched := {};
    var pending := info.Keys;
    while pending != {}
      invariant pending <= info.Keys
      invariant matched == IdsByPort(ports, info) - pending
      decreases |pending|
    {
      var id := NextKey(pending);
      pending := pending - {id};
      if PortFromHostPort(info[id].target) in ports {
        matched := matched + {id};
      }
    }
  }

  /** The three skips of the orphan loop, then the sort by id. */
  method CollectUnmatched(matched: set<int>, siblings: set<string>, dnsPorts: set<UInt32>, info: InfoMap)
    returns (rows: seq<UnmatchedRow>)
    ensures IsUnmatchedListing(rows, Leftover(matched, siblings, dnsPorts, info), info)
  {
    rows := [];
    ghost var orphans := Leftover(matched, siblings, dnsPorts, info);
    var pending := info.Keys;
    while pending != {}
      invariant pending <= info.Keys
      invariant forall i, j | 0 <= i < j < |rows| :: rows[i].id != rows[j].id
      invariant forall row :: row in rows <==> row.id in orphans - pending && IsRowFor(row, info[row.id])
      decreases |pending|
    {
      var id := NextKey(pending);
      pending := pending - {id};
      var si := info[id];
      if id !in matched && si.target !in siblings && PortFromHostPort(si.target) !in dnsPorts {
        ghost var was := rows;
        rows := rows + [UnmatchedRow(id, si.name, si.target)];
        assert forall row :: row in rows <==> row in was || row == UnmatchedRow(id, si.name, si.target);
      }
    }
    ghost var was := rows;
    rows := SortSlice(rows, UnmatchedLess);
    forall row ensures row in rows <==> row in was {
      assert row in multiset(rows) <==> row in multiset(was);
    }
  }

  ghost predicate GroupedByTarget(groups: map<string, seq<int>>, ids: set<int>, info: InfoMap)
    requires ids <= info.Keys
  {
    && (forall a | a in groups :: groups[a] != [] && NoDup(groups[a]))
    && (forall a, id | a in groups && id in groups[a] :: id in ids && info[id].target == a)
    && (forall id | id in ids :: info[id].target in groups && id in groups[info[id].target])
  }

  /** Group the matched ids by target; an id without info is skipped. */
  method GroupMatched(matched: set<int>, info: InfoMap) returns (groups: map<string, seq<int>>)
    ensures GroupedByTarget(groups, matched * info.Keys, info)
  {
    groups := map[];
    var pending := matched;
    while pending != {}
      invariant pending <= matched
      invariant GroupedByTarget(groups, (matched - pending) * info.Keys, info)
      decreases |pending|
    {
      ghost var left := pending;
      var id := NextKey(pending);
      pending := pending - {id};
      assert matched - left == matched - pending - {id};
      if id in info {
        var t := info[id].target;
        ghost var done := (matched - pending - {id}) * info.Keys;
        groups := groups[t := (if t in groups then groups[t] else []) + [id]];
        assert (matched - pending) * info.Keys == done + {id};
      } else {
        assert (matched - pending) * info.Keys == (matched - pending - {id}) * info.Keys;
      }
    }
    assert matched - pending == matched;
  }

  /** One row for each group, its ids sorted, then the rows sorted. */
  method ClusterPools(matched: set<int>, info: InfoMap) returns (rows: seq<PoolRow>)
    ensures IsPoolListing(rows, matched * info.Keys, info)
  {
    var groups := GroupMatched(matched, info);
    ghost var ids := matched * info.Keys;
    rows := [];
    var pending := groups.Keys;
    while pending != {}
      invariant pending <= groups.Keys && DistinctAddresses(rows)
      invariant forall row | row in rows :: row.address in groups && row.address !in pending && IsPool(row, ids, info)
      invariant forall a | a in groups && a !in pending :: HasAddress(rows, a)
      decreases |pending|
    {
      var addr := NextKey(pending);
      pending := pending - {addr};
      var row := SortedPool(addr, groups[addr], ids, info);
      ghost var was := rows;
      rows := rows + [row];
      assert rows[|was|] == row;
    }
    ghost var was := rows;
    rows := SortPools(rows);
    forall id | id in ids ensures HasAddress(rows, info[id].target) {
      assert HasAddress(was, info[id].target);
      var r :| r in was && r.address == info[id].target;
      assert r in rows;
    }
  }

  method SortedPool(addr: string, group: seq<int>, ghost ids: set<int>, info: InfoMap) returns (row: PoolRow)
    requires ids <= info.Keys && group != [] && NoDup(group)
    requires forall id :: id in group <==> id in ids && info[id].target == addr
    ensures row.address == addr && IsPool(row, ids, info)
  {
    IntOrder();
    var sorted := SortSlice(group, IntLess);
    forall id ensures id in sorted <==> id in group {
      assert id in multiset(sorted) <==> id in multiset(group);
    }
    row := NewPoolRow(addr, sorted, info);
    assert |sorted| == |group| by {
      assert |multiset(sorted)| == |multiset(group)|;
    }
  }

  /** Everything after the dump and the subchannels have been fetched. */
  method JoinCluster(res: Resources, c: Cluster, byAddr: ByAddress, info: InfoMap) returns (d: PageData)
    ensures IsPage(d, res, c, byAddr, info)
  {
    var isDns := IsDns(c);
    var localities := OwnLocalities(res, c);
    var ports := {};
    if isDns {
      ports := CollectPorts(localities, {});
    }
    var matched := MatchByPort(ports, info);
    var groups, claimed := JoinLocalities(localities, byAddr, info);
    matched := matched + claimed;
    StringOrder();
    var sorted := SortSlice(groups, LocalityLess);
    var siblings := CollectSiblings(res.endpoints);
    var dnsPorts := StrictDnsPorts(res.clusters);
    var unmatched := CollectUnmatched(matched, siblings, dnsPorts, info);
    var pools := ClusterPools(matched, info);
    MatchedAndLeftOver(res, c, byAddr, info, matched);
    d := PageData(isDns, EdsServiceName(c), sorted, pools, unmatched);
  }

  /** Claimed ids without info change neither the pools nor the orphans. */
  lemma MatchedAndLeftOver(res: Resources, c: Cluster, byAddr: ByAddress, info: InfoMap, matched: set<int>)
    requires var own := EndpointsOf(OwnLocalities(res, c));
      matched == IdsByPort(if IsDns(c) then PortsOf(own) else {}, info) + ClaimedIds(own, byAddr)
    ensures matched * info.Keys == MatchedIds(res, c, byAddr, info)
    ensures Leftover(matched, SiblingAddresses(res), DnsPorts(res.clusters), info) == OrphanIds(res, c, byAddr, info)
  {
  }

  // ----- What a page shows of the dump -----

  /** The row shows the endpoint, and the class of subchannels at its address. */
  ghost predicate RowShows(row: EndpointRow, l: LocalityEndpoints, e: Endpoint, byAddr: ByAddress, info: InfoMap) {
    && row.address == FormatSocketAddress(e.address) && row.health == e.health && row.weight == e.weight
    && row.locality == l.locality
    && if row.address in byAddr && byAddr[row.address] != [] then
         row.subchannelId == byAddr[row.address][0] && ShowsClass(row, byAddr[row.address], info)
       else row == EndpointRow(row.address, e.health, e.weight, l.locality, 0, "", 0, 0, 0)
  }

  /** The name of the id shown, the number of ids, and the calls a pool of them has. */
  ghost predicate ShowsClass(row: EndpointRow, ids: seq<int>, info: InfoMap) {
    && row.poolSize == |ids|
    && (row.subchannelId in info ==> row.subchannelName == info[row.subchannelId].name)
    && forall pool | RowSums(pool, info) && pool.ids == ids :: row.started == pool.started && row.failed == pool.failed
  }

  ghost predicate GroupShows(g: LocalityGroup, l: LocalityEndpoints, byAddr: ByAddress, info: InfoMap) {
    && g.locality == l.locality && g.priority == l.priority && g.weight == l.weight
    && |g.rows| == |l.endpoints|
    && forall i | 0 <= i < |g.rows| :: RowShows(g.rows[i], l, l.endpoints[i], byAddr, info)
  }

  /** Some group of the page shows the locality. */
  ghost predicate IsShown(l: LocalityEndpoints, groups: seq<LocalityGroup>, byAddr: ByAddress, info: InfoMap) {
    exists g :: g in groups && GroupShows(g, l, byAddr, info)
  }

  ghost predicate ShowsOne(g: LocalityGroup, ls: seq<LocalityEndpoints>, byAddr: ByAddress, info: InfoMap) {
    exists l :: l in ls && GroupShows(g, l, byAddr, info)
  }

  /** The groups show these localities, in the order of their names, and nothing else. */
  ghost predicate ShowsLocalities(groups: seq<LocalityGroup>, ls: seq<LocalityEndpoints>, byAddr: ByAddress,
                                  info: InfoMap) {
    && |groups| == |ls|
    && (forall l | l in ls :: IsShown(l, groups, byAddr, info))
    && (forall g | g in groups :: ShowsOne(g, ls, byAddr, info))
    && forall i, j | 0 <= i < j < |groups| :: !StringLess(groups[j].locality, groups[i].locality)
  }

  /** The cluster names its EDS service itself, or goes by its own name. */
  ghost predicate HasService(c: Cluster, service: string) {
    (c.edsConfig == Some(service) && service != "")
    || ((c.edsConfig == None || c.edsConfig == Some("")) && service == c.name)
  }

  /** A DNS cluster is shown with its inline endpoints, any other with those of the last config
      of its EDS service that decodes, or with none. */
  ghost predicate ShowsCluster(d: PageData, c: Cluster, configs: seq<GenericXdsConfig>, byAddr: ByAddress,
                               info: InfoMap) {
    && d.PageData? && HasService(c, d.edsServiceName)
    && (d.isDns <==> c.kind == StrictDns || c.kind == LogicalDns)
    && (d.isDns ==>
          ShowsLocalities(d.localities, if c.inline.Some? then c.inline.value.localities else [], byAddr, info))
    && (!d.isDns ==> forall a | IsLast(configs, DecodeAssignment, d.edsServiceName, a) ::
          ShowsLocalities(d.localities, a.localities, byAddr, info))
    && (!d.isDns && (forall a :: !IsLast(configs, DecodeAssignment, d.edsServiceName, a)) ==> d.localities == [])
    && LargestFirst(d.pools)
    && forall i, j | 0 <= i < j < |d.unmatched| :: d.unmatched[i].id < d.unmatched[j].id
  }

  lemma RowOfShows(l: LocalityEndpoints, e: Endpoint, byAddr: ByAddress, info: InfoMap)
    ensures RowShows(RowOf(e, l.locality, byAddr, info), l, e, byAddr, info)
  {
  }

  lemma GroupOfShows(l: LocalityEndpoints, byAddr: ByAddress, info: InfoMap)
    ensures GroupShows(GroupOf(l, byAddr, info), l, byAddr, info)
  {
    forall i | 0 <= i < |l.endpoints|
      ensures RowShows(GroupOf(l, byAddr, info).rows[i], l, l.endpoints[i], byAddr, info) {
      RowOfShows(l, l.endpoints[i], byAddr, info);
    }
  }

  lemma LocalitiesShown(groups: seq<LocalityGroup>, ls: seq<LocalityEndpoints>, byAddr: ByAddress, info: InfoMap)
    requires Sorted(groups, LocalityLess) && multiset(groups) == multiset(GroupsOf(ls, byAddr, info))
    ensures ShowsLocalities(groups, ls, byAddr, info)
  {
    var made := GroupsOf(ls, byAddr, info);
    assert |groups| == |multiset(groups)| == |multiset(made)| == |ls|;
    forall l | l in ls ensures IsShown(l, groups, byAddr, info) {
      var n :| 0 <= n < |ls| && ls[n] == l;
      GroupOfShows(l, byAddr, info);
      assert made[n] in multiset(made);
      assert made[n] in groups;
    }
    forall g | g in groups ensures ShowsOne(g, ls, byAddr, info) {
      assert g in multiset(made);
      var n :| 0 <= n < |made| && made[n] == g;
      GroupOfShows(ls[n], byAddr, info);
      assert ls[n] in ls;
    }
  }

  lemma PageShows(d: PageData, res: Resources, c: Cluster, configs: seq<GenericXdsConfig>, byAddr: ByAddress,
                  info: InfoMap)
    requires IsResources(res, configs) && IsPage(d, res, c, byAddr, info)
    ensures ShowsCluster(d, c, configs, byAddr, info)
  {
    LocalitiesShown(d.localities, OwnLocalities(res, c), byAddr, info);
    if d.edsServiceName in res.endpoints {
      assert IsLast(configs, DecodeAssignment, d.edsServiceName, res.endpoints[d.edsServiceName]);
    }
    forall a | IsLast(configs, DecodeAssignment, d.edsServiceName, a)
      ensures d.edsServiceName in res.endpoints && res.endpoints[d.edsServiceName] == a {
    }
  }

  /** The page for one cluster name. */
  method GetXdsCluster(status: ClientStatus, clusterName: string, byAddr: ByAddress, info: InfoMap)
    returns (d: PageData)
    ensures d.StatusError? <==> status.FetchFailed?
    ensures status.Fetched? ==> forall res | IsResources(res, status.configs) ::
      if clusterName in res.clusters then IsPage(d, res, res.clusters[clusterName], byAddr, info)
      else d.NoSuchCluster?
    ensures forall c | status.Fetched? && IsLast(status.configs, DecodeCluster, clusterName, c) ::
      ShowsCluster(d, c, status.configs, byAddr, info)
  {
    if status.FetchFailed? {
      return StatusError;
    }
    var res := NewXdsResources(status.configs);
    forall r | IsResources(r, status.configs) ensures r == res {
      ResourcesUnique(r, res, status.configs);
    }
    forall c | IsLast(status.configs, DecodeCluster, clusterName, c)
      ensures clusterName in res.clusters && res.clusters[clusterName] == c {
    }
    if clusterName !in res.clusters {
      return NoSuchCluster;
    }
    d := JoinCluster(res, res.clusters[clusterName], byAddr, info);
    PageShows(d, res, res.clusters[clusterName], status.configs, byAddr, info);
  }
}
