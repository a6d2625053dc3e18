/** Pools: the subchannels of a channel grouped by remote address. */
module Pools {
  import opened Prelude
  import opened Sorting
  import opened Subchannels

  datatype PoolRow = PoolRow(address: string, count: nat, ids: seq<int>,
                             started: Int64, succeeded: Int64, failed: Int64)

  /** Largest pools first, then by address. */
  predicate PoolLess(a: PoolRow, b: PoolRow) {
    if a.count != b.count then a.count > b.count else StringLess(a.address, b.address)
  }

  lemma PoolOrder()
    ensures Ordering(PoolLess)
    ensures forall a: PoolRow, b: PoolRow :: a.address != b.address ==> PoolLess(a, b) || PoolLess(b, a)
  {
    StringOrder();
  }

  ghost predicate RowSums(row: PoolRow, info: InfoMap) {
    && row.count == |row.ids|
    && row.started == Wrap64(Total(row.ids, info, Started))
    && row.succeeded == Wrap64(Total(row.ids, info, Succeeded))
    && row.failed == Wrap64(Total(row.ids, info, Failed))
  }

  /** One more id adds that subchannel's own counters, each to its own column; a row of one id
      shows them. */
  lemma RowAddsUp(row: PoolRow, longer: PoolRow, id: int, info: InfoMap)
    requires RowSums(row, info) && RowSums(longer, info) && longer.ids == row.ids + [id] && id in info
    ensures longer.count == row.count + 1
    ensures longer.started == Wrap64(row.started + info[id].started)
    ensures longer.succeeded == Wrap64(row.succeeded + info[id].succeeded)
    ensures longer.failed == Wrap64(row.failed + info[id].failed)
    ensures row.ids == [] ==> longer.started == info[id].started && longer.succeeded == info[id].succeeded
                              && longer.failed == info[id].failed
  {
    assert longer.ids[..|row.ids|] == row.ids;
    WrapAbsorbs(Total(row.ids, info, Started), info[id].started);
    WrapAbsorbs(Total(row.ids, info, Succeeded), info[id].succeeded);
    WrapAbsorbs(Total(row.ids, info, Failed), info[id].failed);
  }

  /** Larger pools stand first, pools of one size by address. */
  ghost predicate LargestFirst(rows: seq<PoolRow>) {
    forall i, j | 0 <= i < j < |rows| ::
      rows[i].count > rows[j].count
      || (rows[i].count == rows[j].count && StringLess(rows[i].address, rows[j].address))
  }

  /** row is the pool of its address among ids: every such id, in order, summed. */
  ghost predicate IsPool(row: PoolRow, ids: set<int>, info: InfoMap)
    requires ids <= info.Keys
  {
    && RowSums(row, info)
    && row.ids != [] && Ascending(row.ids, IntLess)
    && (forall id :: id in row.ids <==> id in ids && info[id].target == row.address)
  }

  /** The ordered listing of ids by pool. */
  ghost predicate IsPoolListing(rows: seq<PoolRow>, ids: set<int>, info: InfoMap)
    requires ids <= info.Keys
  {
    && Ascending(rows, PoolLess)
    && (forall row | row in rows :: IsPool(row, ids, info))
    && (forall id | id in ids :: HasAddress(rows, info[id].target))
  }

  ghost predicate HasAddress(rows: seq<PoolRow>, address: string) {
    exists row :: row in rows && row.address == address
  }

  ghost predicate DistinctAddresses(rows: seq<PoolRow>) {
    forall i, j | 0 <= i < j < |rows| :: rows[i].address != rows[j].address
  }

  method NewPoolRow(address: string, ids: seq<int>, info: InfoMap) returns (row: PoolRow)
    ensures row.address == address && row.ids == ids && RowSums(row, info)
  {
    var started := SumCalls(ids, info, Started);
    var succeeded := SumCalls(ids, info, Succeeded);
    var failed := SumCalls(ids, info, Failed);
    row := PoolRow(address, |ids|, ids, started, succeeded, failed);
  }

  /** Sorting rows of distinct addresses leaves the same rows in strict order. */
  method SortPools(rows: seq<PoolRow>) returns (sorted: seq<PoolRow>)
    requires DistinctAddresses(rows)
    ensures Ascending(sorted, PoolLess)
    ensures forall row :: row in sorted <==> row in rows
  {
    PoolOrder();
    sorted := SortSlice(rows, PoolLess);
    forall row ensures row in sorted <==> row in rows {
      assert row in multiset(sorted) <==> row in multiset(rows);
    }
  }

  /** The listing of the channel's own pools page: one row for each class of the index. */
  ghost predicate IsChannelListing(rows: seq<PoolRow>, byAddr: ByAddress, info: InfoMap) {
    && Ascending(rows, PoolLess)
    && (forall row | row in rows :: row.address in byAddr && row.ids == byAddr[row.address] && RowSums(row, info))
    && (forall a | a in byAddr :: HasAddress(rows, a))
  }

  method SubchannelPools(byAddr: ByAddress, info: InfoMap) returns (rows: seq<PoolRow>)
    ensures IsChannelListing(rows, byAddr, info) && LargestFirst(rows)
  {
    rows := [];
    var pending := byAddr.Keys;
    while pending != {}
      invariant pending <= byAddr.Keys && DistinctAddresses(rows)
      invariant forall row | row in rows ::
          row.address in byAddr && row.address !in pending
          && row.ids == byAddr[row.address] && RowSums(row, info)
      invariant forall a | a in byAddr && a !in pending :: HasAddress(rows, a)
      decreases |pending|
    {
      var addr := NextKey(pending);
      pending := pending - {addr};
      var row := NewPoolRow(addr, byAddr[addr], info);
      ghost var was := rows;
      rows := rows + [row];
      assert rows[|was|] == row;
      forall a | a in byAddr && a !in pending ensures HasAddress(rows, a) {
        if a != addr {
          assert HasAddress(was, a);
          var r :| r in was && r.address == a;
          assert r in rows;
        }
      }
    }
    ghost var was := rows;
    rows := SortPools(rows);
    forall a | a in byAddr ensures HasAddress(rows, a) {
      assert HasAddress(was, a);
      var r :| r in was && r.address == a;
      assert r in rows;
    }
  }

  lemma ChannelListingListsAll(rows: seq<PoolRow>, byAddr: ByAddress, info: InfoMap)
    requires IsChannelListing(rows, byAddr, info) && Indexed(byAddr, info)
    ensures IsPoolListing(rows, info.Keys, info)
  {
    forall row | row in rows ensures IsPool(row, info.Keys, info) {
      forall id ensures id in row.ids <==> id in info.Keys && info[id].target == row.address {
      }
    }
  }

  /** The channel's listing is determined by the two maps, whatever they hold. */
  lemma ChannelListingDetermined(rows: seq<PoolRow>, rows': seq<PoolRow>, byAddr: ByAddress, info: InfoMap)
    requires IsChannelListing(rows, byAddr, info) && IsChannelListing(rows', byAddr, info)
    ensures rows == rows'
  {
    forall row ensures row in rows <==> row in rows' {
      assert row in rows ==> HasAddress(rows', row.address);
      assert row in rows' ==> HasAddress(rows, row.address);
    }
    PoolOrder();
    ListingUnique(rows, rows', PoolLess);
  }

  /** The ids and the snapshot determine the listing. */
  lemma PoolListingUnique(rows: seq<PoolRow>, rows': seq<PoolRow>, ids: set<int>, info: InfoMap)
    requires ids <= info.Keys
    requires IsPoolListing(rows, ids, info) && IsPoolListing(rows', ids, info)
    ensures rows == rows'
  {
    forall row ensures row in rows <==> row in rows' {
      if row in rows { SameRowListed(row, rows', ids, info); }
      if row in rows' { SameRowListed(row, rows, ids, info); }
    }
    PoolOrder();
    ListingUnique(rows, rows', PoolLess);
  }

  lemma SameRowListed(row: PoolRow, rows: seq<PoolRow>, ids: set<int>, info: InfoMap)
    requires ids <= info.Keys && IsPool(row, ids, info) && IsPoolListing(rows, ids, info)
    ensures row in rows
  {
    var id := row.ids[0];
    assert id in row.ids;
    assert HasAddress(rows, info[id].target);
    var other :| other in rows && other.address == row.address;
    assert IsPool(other, ids, info);
    IntListingUnique(row.ids, other.ids);
    assert row == other;
  }

  /** The rows whose address is in addrs, in the order of rows. */
  function AtAddresses(rows: seq<PoolRow>, addrs: set<string>): seq<PoolRow> {
    if rows == [] then []
    else if rows[0].address in addrs then [rows[0]] + AtAddresses(rows[1..], addrs)
    else AtAddresses(rows[1..], addrs)
  }

  lemma {:induction false} AtAddressesKeeps(rows: seq<PoolRow>, addrs: set<string>)
    requires Ascending(rows, PoolLess)
    ensures forall row :: row in AtAddresses(rows, addrs) <==> row in rows && row.address in addrs
    ensures Ascending(AtAddresses(rows, addrs), PoolLess)
  {
    if rows != [] {
      assert rows == [rows[0]] + rows[1..];
      AtAddressesKeeps(rows[1..], addrs);
      var rest := AtAddresses(rows[1..], addrs);
      forall j | 0 <= j < |rest| ensures PoolLess(rows[0], rest[j]) {
        assert rest[j] in rest;
        assert rest[j] in rows[1..];
      }
    }
  }

  /** The addresses of some subchannels. */
  ghost function Targets(ids: set<int>, info: InfoMap): set<string>
    requires ids <= info.Keys
  {
    set id | id in ids :: info[id].target
  }

  /** ids contains all or none of the subchannels of each address. */
  ghost predicate WholeClasses(ids: set<int>, info: InfoMap)
    requires ids <= info.Keys
  {
    forall x, y | x in ids && y in info && info[x].target == info[y].target :: y in ids
  }

  /** A listing of whole classes is the listing of everything cut down to their addresses. */
  lemma WholeClassesListing(all: seq<PoolRow>, part: seq<PoolRow>, ids: set<int>, info: InfoMap)
    requires ids <= info.Keys && WholeClasses(ids, info)
    requires IsPoolListing(all, info.Keys, info) && IsPoolListing(part, ids, info)
    ensures part == AtAddresses(all, Targets(ids, info))
  {
    var cut := AtAddresses(all, Targets(ids, info));
    AtAddressesKeeps(all, Targets(ids, info));
    forall row | row in cut ensures IsPool(row, ids, info) {
      assert IsPool(row, info.Keys, info);
      var x :| x in ids && info[x].target == row.address;
    }
    forall id | id in ids ensures HasAddress(cut, info[id].target) {
      assert HasAddress(all, info[id].target);
      var row :| row in all && row.address == info[id].target;
      assert row in cut;
    }
    PoolListingUnique(part, cut, ids, info);
  }

  // ----- Sums over a listing -----

  function RowCalls(row: PoolRow, k: Counter): Int64 {
    match k
    case Started => row.started
    case Succeeded => row.succeeded
    case Failed => row.failed
  }

  /** The exact sum of one counter column. */
  function ColumnSum(rows: seq<PoolRow>, k: Counter): int {
    if rows == [] then 0 else ColumnSum(rows[..|rows| - 1], k) + RowCalls(rows[|rows| - 1], k)
  }

  function CountSum(rows: seq<PoolRow>): nat {
    if rows == [] then 0 else CountSum(rows[..|rows| - 1]) + rows[|rows| - 1].count
  }

  ghost function ListedIds(rows: seq<PoolRow>): set<int> { set row, id | row in rows && id in row.ids :: id }

  /** Every row is summed over its own ids, and no id stands in two rows or twice in one. */
  ghost predicate SeparateRows(rows: seq<PoolRow>, info: InfoMap) {
    && (forall i | 0 <= i < |rows| :: RowSums(rows[i], info) && NoDup(rows[i].ids))
    && (forall i, j | 0 <= i < j < |rows| :: ToSet(rows[i].ids) !! ToSet(rows[j].ids))
  }

  lemma {:induction false} SeparateRowsSum(rows: seq<PoolRow>, info: InfoMap, k: Counter)
    requires SeparateRows(rows, info)
    ensures CountSum(rows) == |ListedIds(rows)|
    ensures Wrap64(ColumnSum(rows, k)) == Wrap64(SetTotal(ListedIds(rows), info, k))
  {
    if rows != [] {
      var n := |rows| - 1;
      SeparateRowsSum(rows[..n], info, k);
      LastRowAdds(rows, info, k);
      WrapStep(ColumnSum(rows[..n], k), SetTotal(ListedIds(rows[..n]), info, k),
               ColumnSum(rows, k), SetTotal(ListedIds(rows), info, k), Total(rows[n].ids, info, k));
    }
  }

  lemma LastRowAdds(rows: seq<PoolRow>, info: InfoMap, k: Counter)
    requires rows != [] && SeparateRows(rows, info)
    ensures var n := |rows| - 1;
      && |ListedIds(rows)| == |ListedIds(rows[..n])| + rows[n].count
      && SetTotal(ListedIds(rows), info, k)
         == SetTotal(ListedIds(rows[..n]), info, k) + Total(rows[n].ids, info, k)
      && RowCalls(rows[n], k) == Wrap64(Total(rows[n].ids, info, k))
  {
    var n := |rows| - 1;
    var front, last := rows[..n], rows[n];
    LastRowIds(rows);
    forall id | id in ListedIds(front) ensures id !in ToSet(last.ids) {
      var row :| row in front && id in row.ids;
      var i :| 0 <= i < n && rows[i] == row;
      assert id in ToSet(rows[i].ids);
    }
    TotalOfSet(last.ids, info, k);
    SetTotalUnion(ListedIds(front), ToSet(last.ids), info, k);
  }

  lemma LastRowIds(rows: seq<PoolRow>)
    requires rows != []
    ensures ListedIds(rows) == ListedIds(rows[..|rows| - 1]) + ToSet(rows[|rows| - 1].ids)
  {
    var front, last := rows[..|rows| - 1], rows[|rows| - 1];
    assert rows == front + [last];
    forall id ensures id in ListedIds(rows) <==> id in ListedIds(front) || id in last.ids {
      if id in ListedIds(front) {
        var row :| row in front && id in row.ids;
        assert row in rows;
      }
      if id in last.ids {
        assert last in rows;
      }
    }
  }

  /** The pools of a listing do not overlap. */
  lemma ListingSeparate(rows: seq<PoolRow>, ids: set<int>, info: InfoMap)
    requires ids <= info.Keys && IsPoolListing(rows, ids, info)
    ensures SeparateRows(rows, info)
  {
    forall i | 0 <= i < |rows| ensures RowSums(rows[i], info) && NoDup(rows[i].ids) {
      assert IsPool(rows[i], ids, info);
    }
    PoolOrder();
    forall i, j | 0 <= i < j < |rows| ensures ToSet(rows[i].ids) !! ToSet(rows[j].ids) {
      assert PoolLess(rows[i], rows[j]);
      assert IsPool(rows[i], ids, info) && IsPool(rows[j], ids, info);
      if id :| id in rows[i].ids && id in rows[j].ids {
        IntListingUnique(rows[i].ids, rows[j].ids);
      }
    }
  }

  /** The columns of a listing add up to the calls of the subchannels listed. */
  lemma ListingSums(rows: seq<PoolRow>, ids: set<int>, info: InfoMap, k: Counter)
    requires ids <= info.Keys && IsPoolListing(rows, ids, info)
    ensures CountSum(rows) == |ids|
    ensures Wrap64(ColumnSum(rows, k)) == Wrap64(SetTotal(ids, info, k))
  {
    ListingSeparate(rows, ids, info);
    SeparateRowsSum(rows, info, k);
    ListedExactly(rows, ids, info);
  }

  /** The ids listed are exactly the ids given. */
  lemma ListedExactly(rows: seq<PoolRow>, ids: set<int>, info: InfoMap)
    requires ids <= info.Keys && IsPoolListing(rows, ids, info)
    ensures ListedIds(rows) == ids
  {
    forall id | id in ids ensures id in ListedIds(rows) {
      assert HasAddress(rows, info[id].target);
      var row :| row in rows && row.address == info[id].target;
      assert IsPool(row, ids, info);
    }
    forall id | id in ListedIds(rows) ensures id in ids {
      var row :| row in rows && id in row.ids;
      assert IsPool(row, ids, info);
    }
  }

  // ----- The members of one pool -----

  datatype PoolMember = PoolMember(id: int, info: SubchannelInfo)

  predicate MemberLess(a: PoolMember, b: PoolMember) { a.id < b.id }

  function MembersOf(ids: seq<int>, info: InfoMap): seq<PoolMember> {
    if ids == [] then []
    else
      var id := ids[|ids| - 1];
      MembersOf(ids[..|ids| - 1], info) + if id in info then [PoolMember(id, info[id])] else []
  }

  function ClassAt(byAddr: ByAddress, address: string): seq<int> {
    if address in byAddr then byAddr[address] else []
  }

  /** The detail page of one address: the ids of its class that have info, in id order, each as
      often as it stands there; over an inverse index, its subchannels, each once. */
  method PoolMembers(byAddr: ByAddress, info: InfoMap, address: string) returns (members: seq<PoolMember>)
    ensures Sorted(members, MemberLess)
    ensures forall i, j | 0 <= i < j < |members| :: members[i].id <= members[j].id
    ensures multiset(members) == multiset(MembersOf(ClassAt(byAddr, address), info))
    ensures Indexed(byAddr, info) ==> ListsMembers(members, info, address)
  {
    var collected := CollectMembers(ClassAt(byAddr, address), info);
    members := SortSlice(collected, MemberLess);
    if Indexed(byAddr, info) {
      MembersListed(members, byAddr, info, address);
    }
  }

  /** Skips an id that is missing from the info map. */
  method CollectMembers(ids: seq<int>, info: InfoMap) returns (members: seq<PoolMember>)
    ensures members == MembersOf(ids, info)
  {
    members := [];
    for n := 0 to |ids|
      invariant members == MembersOf(ids[..n], info)
    {
      assert ids[..n + 1][..n] == ids[..n];
      if ids[n] in info {
        members := members + [PoolMember(ids[n], info[ids[n]])];
      }
    }
    assert ids[..|ids|] == ids;
  }

  ghost predicate ListsMembers(members: seq<PoolMember>, info: InfoMap, address: string) {
    && Ascending(members, MemberLess)
    && forall m :: m in members <==> m.id in info && info[m.id].target == address && m.info == info[m.id]
  }

  lemma {:induction false} MembersOfAll(ids: seq<int>, info: InfoMap)
    requires forall i | 0 <= i < |ids| :: ids[i] in info
    ensures |MembersOf(ids, info)| == |ids|
    ensures forall i | 0 <= i < |ids| :: MembersOf(ids, info)[i] == PoolMember(ids[i], info[ids[i]])
  {
    if ids != [] {
      MembersOfAll(ids[..|ids| - 1], info);
    }
  }

  /** An index never makes the page skip an id: each result aimed at the address is listed. */
  lemma NoMemberSkipped(results: seq<Fetched>, byAddr: ByAddress, info: InfoMap, address: string)
    requires IsIndex(results, byAddr, info)
    ensures var members := MembersOf(ClassAt(byAddr, address), info);
      && |members| == |ClassAt(byAddr, address)|
      && forall i | 0 <= i < |members| :: members[i].id == ClassAt(byAddr, address)[i]
  {
    var ids := ClassAt(byAddr, address);
    forall i | 0 <= i < |ids| ensures ids[i] in info {
      assert ids[i] in ids;
      ClassesHaveInfo(results, byAddr, info, address, ids[i]);
    }
    MembersOfAll(ids, info);
  }

  lemma MembersListed(members: seq<PoolMember>, byAddr: ByAddress, info: InfoMap, address: string)
    requires Indexed(byAddr, info) && Sorted(members, MemberLess)
    requires multiset(members) == multiset(MembersOf(ClassAt(byAddr, address), info))
    ensures ListsMembers(members, info, address)
  {
    var ids := ClassAt(byAddr, address);
    var collected := MembersOf(ids, info);
    forall i | 0 <= i < |ids| ensures ids[i] in info {
      assert ids[i] in ids;
    }
    MembersOfAll(ids, info);
    assert Ascending(members, MemberLess) by {
      WithoutTiesAscending(collected, members, MemberLess);
    }
    forall m ensures m in members <==> m.id in info && info[m.id].target == address && m.info == info[m.id] {
      assert m in multiset(members) <==> m in multiset(collected);
      MembersOfClass(collected, ids, byAddr, info, address, m);
    }
  }

  lemma MembersOfClass(members: seq<PoolMember>, ids: seq<int>, byAddr: ByAddress, info: InfoMap,
                       address: string, m: PoolMember)
    requires Indexed(byAddr, info) && ids == if address in byAddr then byAddr[address] else []
    requires |members| == |ids|
    requires forall i | 0 <= i < |ids| :: members[i].id == ids[i] && ids[i] in info && members[i].info == info[ids[i]]
    ensures m in members <==> m.id in info && info[m.id].target == address && m.info == info[m.id]
  {
    if m.id in info && info[m.id].target == address && m.info == info[m.id] {
      assert m.id in ids;
      var i :| 0 <= i < |ids| && ids[i] == m.id;
      assert members[i] == m;
    }
    if m in members {
      var i :| 0 <= i < |members| && members[i] == m;
      assert ids[i] in byAddr[address];
    }
  }
}
