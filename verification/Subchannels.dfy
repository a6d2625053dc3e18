/** The two maps built from a channel's fetched subchannels, and sums over them. */
module Subchannels {
  import opened Prelude
  import opened Sorting

  datatype SubchannelInfo = SubchannelInfo(
    name: string, target: string, state: string,
    started: Int64, succeeded: Int64, failed: Int64, sockets: seq<Int64>)

  /** One worker result: the id and the data both come from the response. */
  datatype Fetched = Fetched(id: Int64, info: SubchannelInfo)

  type ByAddress = map<string, seq<int>>
  type InfoMap = map<int, SubchannelInfo>

  ghost predicate DistinctIds(results: seq<Fetched>) {
    forall i, j | 0 <= i < j < |results| :: results[i].id != results[j].id
  }

  /** The last result of each id. */
  ghost function InfoOf(results: seq<Fetched>): InfoMap {
    if results == [] then map[]
    else
      var last := results[|results| - 1];
      InfoOf(results[..|results| - 1])[last.id := last.info]
  }

  /** The ids whose result targets addr, in arrival order. */
  ghost function ClassOf(results: seq<Fetched>, addr: string): seq<int> {
    if results == [] then []
    else
      var rest, last := ClassOf(results[..|results| - 1], addr), results[|results| - 1];
      if last.info.target == addr then rest + [last.id] else rest
  }

  ghost predicate HasTarget(results: seq<Fetched>, addr: string) {
    exists i :: 0 <= i < |results| && results[i].info.target == addr
  }

  /** The classes before sorting: one per target, in arrival order. */
  ghost predicate IsGrouping(results: seq<Fetched>, byAddr: ByAddress) {
    && (forall a :: a in byAddr <==> HasTarget(results, a))
    && (forall a | a in byAddr :: byAddr[a] == ClassOf(results, a))
  }

  /** What the index builder computes from the results it received. */
  ghost predicate IsIndex(results: seq<Fetched>, byAddr: ByAddress, info: InfoMap) {
    && info == InfoOf(results)
    && (forall a :: a in byAddr <==> HasTarget(results, a))
    && (forall a | a in byAddr :: IsSortedClass(byAddr[a], results, a))
  }

  ghost predicate IsSortedClass(ids: seq<int>, results: seq<Fetched>, addr: string) {
    Sorted(ids, IntLess) && multiset(ids) == multiset(ClassOf(results, addr))
  }

  /** byAddr is the inverse of info's targets, each class in strict order. */
  ghost predicate Indexed(byAddr: ByAddress, info: InfoMap) {
    && (forall a | a in byAddr :: byAddr[a] != [] && Ascending(byAddr[a], IntLess))
    && (forall a, id | a in byAddr && id in byAddr[a] :: id in info && info[id].target == a)
    && (forall id | id in info :: info[id].target in byAddr && id in byAddr[info[id].target])
  }

  lemma ClassesDisjoint(byAddr: ByAddress, info: InfoMap, a: string, b: string, id: int)
    requires Indexed(byAddr, info) && a in byAddr && b in byAddr && a != b && id in byAddr[a]
    ensures id !in byAddr[b]
  {
    assert info[id].target == a;
  }

  lemma IntOrder()
    ensures Ordering(IntLess)
  {
  }

  lemma GroupStep(results: seq<Fetched>, n: nat, byAddr: ByAddress, byAddr': ByAddress)
    requires n < |results| && IsGrouping(results[..n], byAddr)
    requires var a := results[n].info.target;
      byAddr' == byAddr[a := (if a in byAddr then byAddr[a] else []) + [results[n].id as int]]
    ensures IsGrouping(results[..n + 1], byAddr')
  {
    var before, after, t := results[..n], results[..n + 1], results[n].info.target;
    assert after[..n] == before && after[n] == results[n];
    forall a ensures a in byAddr' <==> HasTarget(after, a) {
      if HasTarget(before, a) {
        var i :| 0 <= i < n && before[i].info.target == a;
        assert after[i].info.target == a;
      }
      if HasTarget(after, a) {
        var i :| 0 <= i < n + 1 && after[i].info.target == a;
        assert i < n ==> before[i].info.target == a;
      }
      assert after[n].info.target == t;
    }
    if t !in byAddr {
      NoTargetNoClass(before, t);
    }
  }

  lemma {:induction false} NoTargetNoClass(results: seq<Fetched>, addr: string)
    requires !HasTarget(results, addr)
    ensures ClassOf(results, addr) == []
  {
    if results != [] {
      var n := |results| - 1;
      assert results[n].info.target != addr;
      assert forall i | 0 <= i < n :: results[..n][i] == results[i];
      NoTargetNoClass(results[..n], addr);
    }
  }

  /** Drain the results in arrival order, then sort every class in place. */
  method IndexResults(results: seq<Fetched>) returns (byAddr: ByAddress, info: InfoMap)
    ensures IsIndex(results, byAddr, info)
  {
    byAddr, info := map[], map[];
    for n := 0 to |results|
      invariant info == InfoOf(results[..n])
      invariant IsGrouping(results[..n], byAddr)
    {
      ghost var was := byAddr;
      var r := results[n];
      assert results[..n + 1][..n] == results[..n];
      info := info[r.id := r.info];
      var a := r.info.target;
      byAddr := byAddr[a := (if a in byAddr then byAddr[a] else []) + [r.id]];
      GroupStep(results, n, was, byAddr);
    }
    assert results[..|results|] == results;
    ghost var grouped := byAddr;
    var pending := byAddr.Keys;
    IntOrder();
    while pending != {}
      invariant byAddr.Keys == grouped.Keys && pending <= byAddr.Keys
      invariant forall a | a in pending :: byAddr[a] == grouped[a]
      invariant forall a | a in byAddr && a !in pending :: IsSortedClass(byAddr[a], results, a)
      decreases |pending|
    {
      var a := NextKey(pending);
      pending := pending - {a};
      var sorted := SortSlice(byAddr[a], IntLess);
      byAddr := byAddr[a := sorted];
    }
  }

  lemma {:induction false} InfoOfKeys(results: seq<Fetched>, id: int)
    ensures id in InfoOf(results) <==> exists i :: 0 <= i < |results| && results[i].id == id
  {
    if results != [] {
      var n := |results| - 1;
      InfoOfKeys(results[..n], id);
      assert forall i | 0 <= i < n :: results[..n][i] == results[i];
      if id == results[n].id {
      } else if id in InfoOf(results) {
        var i :| 0 <= i < n && results[..n][i].id == id;
        assert results[i].id == id;
      }
    }
  }

  /** The last result of an id stands. */
  lemma {:induction false} InfoOfValue(results: seq<Fetched>, i: nat)
    requires i < |results| && forall j | i < j < |results| :: results[j].id != results[i].id
    ensures results[i].id in InfoOf(results) && InfoOf(results)[results[i].id] == results[i].info
  {
    var n := |results| - 1;
    if i < n {
      InfoOfValue(results[..n], i);
      assert results[i].id != results[n].id;
    }
  }

  lemma {:induction false} ClassMembers(results: seq<Fetched>, addr: string, id: int)
    ensures id in ClassOf(results, addr)
      <==> exists i :: 0 <= i < |results| && results[i].id == id && results[i].info.target == addr
  {
    if results != [] {
      var n := |results| - 1;
      ClassMembers(results[..n], addr, id);
      assert forall i | 0 <= i < n :: results[..n][i] == results[i];
      if id in ClassOf(results[..n], addr) {
        var i :| 0 <= i < n && results[..n][i].id == id && results[..n][i].info.target == addr;
        assert results[i].id == id;
      }
    }
  }

  /** Two results with one id and one target put that id into the class twice. */
  lemma {:induction false} ClassRepeats(results: seq<Fetched>, i: nat, j: nat)
    requires i < j < |results|
    requires results[i].id == results[j].id && results[i].info.target == results[j].info.target
    ensures multiset(ClassOf(results, results[i].info.target))[results[i].id] >= 2
  {
    var n, a := |results| - 1, results[i].info.target;
    if j < n {
      ClassRepeats(results[..n], i, j);
    } else {
      ClassMembers(results[..n], a, results[i].id);
      assert results[..n][i] == results[i];
    }
  }

  lemma {:induction false} ClassWithoutRepeats(results: seq<Fetched>, addr: string)
    requires DistinctIds(results)
    ensures NoDup(ClassOf(results, addr))
  {
    if results != [] {
      var n := |results| - 1;
      ClassWithoutRepeats(results[..n], addr);
      ClassMembers(results[..n], addr, results[n].id);
    }
  }

  lemma ClassIsSortedMembers(results: seq<Fetched>, byAddr: ByAddress, info: InfoMap, a: string, id: int)
    requires IsIndex(results, byAddr, info) && a in byAddr
    ensures id in byAddr[a] <==> id in ClassOf(results, a)
  {
    assert IsSortedClass(byAddr[a], results, a);
    assert id in byAddr[a] <==> id in multiset(byAddr[a]);
    assert id in ClassOf(results, a) <==> id in multiset(ClassOf(results, a));
  }

  /** Every id in a class has info, whatever ids the responses carried. */
  lemma ClassesHaveInfo(results: seq<Fetched>, byAddr: ByAddress, info: InfoMap, a: string, id: int)
    requires IsIndex(results, byAddr, info) && a in byAddr && id in byAddr[a]
    ensures id in info
  {
    ClassIsSortedMembers(results, byAddr, info, a, id);
    ClassMembers(results, a, id);
    InfoOfKeys(results, id);
  }

  lemma DistinctGivesInverse(results: seq<Fetched>, byAddr: ByAddress, info: InfoMap)
    requires IsIndex(results, byAddr, info) && DistinctIds(results)
    ensures Indexed(byAddr, info)
  {
    forall a | a in byAddr ensures byAddr[a] != [] && Ascending(byAddr[a], IntLess) {
      assert IsSortedClass(byAddr[a], results, a);
      var i :| 0 <= i < |results| && results[i].info.target == a;
      ClassMembers(results, a, results[i].id);
      ClassIsSortedMembers(results, byAddr, info, a, results[i].id);
      ClassWithoutRepeats(results, a);
      IntOrder();
      WithoutTiesAscending(ClassOf(results, a), byAddr[a], IntLess);
    }
    forall a, id | a in byAddr && id in byAddr[a] ensures id in info && info[id].target == a {
      ClassIsSortedMembers(results, byAddr, info, a, id);
      ClassMembers(results, a, id);
      var i :| 0 <= i < |results| && results[i].id == id && results[i].info.target == a;
      InfoOfValue(results, i);
    }
    forall id | id in info ensures info[id].target in byAddr && id in byAddr[info[id].target] {
      InfoOfKeys(results, id);
      var i :| 0 <= i < |results| && results[i].id == id;
      InfoOfValue(results, i);
      var a := results[i].info.target;
      assert HasTarget(results, a);
      ClassMembers(results, a, id);
      ClassIsSortedMembers(results, byAddr, info, a, id);
    }
  }

  lemma InverseNeedsDistinct(results: seq<Fetched>, byAddr: ByAddress, info: InfoMap)
    requires IsIndex(results, byAddr, info) && Indexed(byAddr, info)
    ensures DistinctIds(results)
  {
    forall i, j | 0 <= i < j < |results| ensures results[i].id != results[j].id {
      if results[i].id == results[j].id {
        var id, a, b := results[i].id, results[i].info.target, results[j].info.target;
        assert HasTarget(results, a) && HasTarget(results, b);
        ClassMembers(results, a, id);
        ClassMembers(results, b, id);
        ClassIsSortedMembers(results, byAddr, info, a, id);
        ClassIsSortedMembers(results, byAddr, info, b, id);
        assert a == info[id].target == b;
        ClassRepeats(results, i, j);
        assert IsSortedClass(byAddr[a], results, a);
        TwiceMeansTwoPlaces(byAddr[a], id);
        assert false;
      }
    }
  }

  /** The two maps are inverse to each other exactly when no id was returned twice. */
  lemma InverseExactlyWhenDistinct(results: seq<Fetched>, byAddr: ByAddress, info: InfoMap)
    requires IsIndex(results, byAddr, info)
    ensures Indexed(byAddr, info) <==> DistinctIds(results)
  {
    if DistinctIds(results) {
      DistinctGivesInverse(results, byAddr, info);
    } else if Indexed(byAddr, info) {
      InverseNeedsDistinct(results, byAddr, info);
    }
  }

  /** An inverse index is determined by the info map. */
  lemma IndexDetermined(byAddr: ByAddress, byAddr': ByAddress, info: InfoMap)
    requires Indexed(byAddr, info) && Indexed(byAddr', info)
    ensures byAddr == byAddr'
  {
    forall a ensures a in byAddr <==> a in byAddr' {
      if a in byAddr {
        var id := byAddr[a][0];
        assert id in byAddr[a] && id in info;
      }
      if a in byAddr' {
        var id := byAddr'[a][0];
        assert id in byAddr'[a] && id in info;
      }
    }
    forall a | a in byAddr && a in byAddr' ensures byAddr[a] == byAddr'[a] {
      forall id ensures id in byAddr[a] <==> id in byAddr'[a] {
        if id in byAddr[a] { assert info[id].target == a; }
        if id in byAddr'[a] { assert info[id].target == a; }
      }
      IntListingUnique(byAddr[a], byAddr'[a]);
    }
  }

  lemma DistinctAfterReordering(r: seq<Fetched>, r': seq<Fetched>)
    requires multiset(r) == multiset(r') && DistinctIds(r)
    ensures DistinctIds(r')
  {
    forall i, j | 0 <= i < j < |r'| ensures r'[i].id != r'[j].id {
      if r'[i].id == r'[j].id {
        assert r'[i] in multiset(r) && r'[j] in multiset(r) by {
          assert r'[i] in multiset(r') && r'[j] in multiset(r');
        }
        if r'[i] == r'[j] {
          assert r' == r'[..j] + [r'[j]] + r'[j + 1..];
          assert r'[i] in r'[..j];
          assert multiset(r')[r'[i]] >= 2;
          TwiceMeansTwoPlaces(r, r'[i]);
        }
        assert false;
      }
    }
  }

  lemma InfoIncluded(r: seq<Fetched>, r': seq<Fetched>, id: int)
    requires multiset(r) == multiset(r') && DistinctIds(r) && DistinctIds(r')
    requires id in InfoOf(r)
    ensures id in InfoOf(r') && InfoOf(r')[id] == InfoOf(r)[id]
  {
    InfoOfKeys(r, id);
    var i :| 0 <= i < |r| && r[i].id == id;
    InfoOfValue(r, i);
    assert r[i] in multiset(r');
    var j :| 0 <= j < |r'| && r'[j] == r[i];
    InfoOfValue(r', j);
  }

  lemma InfoOrderFree(r: seq<Fetched>, r': seq<Fetched>)
    requires multiset(r) == multiset(r') && DistinctIds(r) && DistinctIds(r')
    ensures InfoOf(r) == InfoOf(r')
  {
    forall id | id in InfoOf(r) ensures id in InfoOf(r') && InfoOf(r')[id] == InfoOf(r)[id] {
      InfoIncluded(r, r', id);
    }
    forall id | id in InfoOf(r') ensures id in InfoOf(r) {
      InfoIncluded(r', r, id);
    }
  }

  /** Both maps depend on which results arrived, not on the order of their arrival. */
  lemma ArrivalOrderIrrelevant(r: seq<Fetched>, byAddr: ByAddress, info: InfoMap,
                               r': seq<Fetched>, byAddr': ByAddress, info': InfoMap)
    requires IsIndex(r, byAddr, info) && IsIndex(r', byAddr', info')
    requires multiset(r) == multiset(r') && DistinctIds(r)
    ensures info == info' && byAddr == byAddr'
  {
    DistinctAfterReordering(r, r');
    InfoOrderFree(r, r');
    DistinctGivesInverse(r, byAddr, info);
    DistinctGivesInverse(r', byAddr', info');
    IndexDetermined(byAddr, byAddr', info);
  }

  // ----- Sums over subchannels -----

  datatype Counter = Started | Succeeded | Failed

  /** A counter of one subchannel; 0 for an id that is not in the map. */
  function Calls(info: InfoMap, id: int, k: Counter): Int64 {
    if id !in info then 0
    else match k
      case Started => info[id].started
      case Succeeded => info[id].succeeded
      case Failed => info[id].failed
  }

  function Total(ids: seq<int>, info: InfoMap, k: Counter): int {
    if ids == [] then 0
    else Total(ids[..|ids| - 1], info, k) + Calls(info, ids[|ids| - 1], k)
  }

  ghost function SetTotal(ids: set<int>, info: InfoMap, k: Counter): int {
    if ids == {} then 0
    else
      var id := Pick(ids);
      Calls(info, id, k) + SetTotal(ids - {id}, info, k)
  }

  lemma {:induction false} SetTotalSplit(ids: set<int>, x: int, info: InfoMap, k: Counter)
    requires x in ids
    ensures SetTotal(ids, info, k) == Calls(info, x, k) + SetTotal(ids - {x}, info, k)
    decreases ids
  {
    var id := Pick(ids);
    if id != x {
      SetTotalSplit(ids - {id}, x, info, k);
      SetTotalSplit(ids - {x}, id, info, k);
      assert ids - {id} - {x} == ids - {x} - {id};
    }
  }

  lemma {:induction false} SetTotalUnion(a: set<int>, b: set<int>, info: InfoMap, k: Counter)
    requires a !! b
    ensures SetTotal(a + b, info, k) == SetTotal(a, info, k) + SetTotal(b, info, k)
    decreases a
  {
    if a == {} {
      assert a + b == b;
    } else {
      var x := Pick(a);
      SetTotalSplit(a, x, info, k);
      SetTotalSplit(a + b, x, info, k);
      assert (a + b) - {x} == (a - {x}) + b;
      SetTotalUnion(a - {x}, b, info, k);
    }
  }

  ghost function ToSet(ids: seq<int>): set<int> { set id | id in ids }

  lemma {:induction false} TotalOfSet(ids: seq<int>, info: InfoMap, k: Counter)
    requires NoDup(ids)
    ensures Total(ids, info, k) == SetTotal(ToSet(ids), info, k)
    ensures |ToSet(ids)| == |ids|
  {
    if ids != [] {
      var n := |ids| - 1;
      TotalOfSet(ids[..n], info, k);
      LastId(ids);
      SetTotalSplit(ToSet(ids), ids[n], info, k);
    }
  }

  lemma LastId(ids: seq<int>)
    requires ids != [] && NoDup(ids)
    ensures var n := |ids| - 1;
      ids[n] in ToSet(ids) && ids[n] !in ToSet(ids[..n]) && ToSet(ids) - {ids[n]} == ToSet(ids[..n])
  {
    var n := |ids| - 1;
    assert ids == ids[..n] + [ids[n]];
  }

  /** Adding up a counter over ids with wrapping int64 additions. */
  method SumCalls(ids: seq<int>, info: InfoMap, k: Counter) returns (sum: Int64)
    ensures sum == Wrap64(Total(ids, info, k))
  {
    sum := 0;
    for n := 0 to |ids|
      invariant sum == Wrap64(Total(ids[..n], info, k))
    {
      assert ids[..n + 1][..n] == ids[..n];
      WrapAbsorbs(Total(ids[..n], info, k), Calls(info, ids[n], k));
      sum := Wrap64(sum + Calls(info, ids[n], k));
    }
    assert ids[..|ids|] == ids;
  }
}
