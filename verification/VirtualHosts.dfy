/** The listing of virtual hosts and the role of each. */
module VirtualHosts {
  import opened Prelude
  import opened Sorting
  import opened Xds
  import opened XdsTarget

  const SIDECAR := "sidecar/http2/"

  function VhdsResourceName(resource: string): string { SIDECAR + resource }

  type Hosts = map<string, VirtualHost>

  datatype Role = DialTime | CallTime | DialTimeOf(channel: Int64)

  datatype Section = Section(resourceName: string, role: Role, authority: string,
                             domains: seq<string>, host: VirtualHost)

  datatype Channel = Channel(id: Int64, target: string)

  /** A name-field match: any of them, since the map's order decides. */
  ghost predicate NamedLike(hosts: Hosts, resource: string, key: string) {
    key in hosts && hosts[key].name == resource
  }

  /** key is an acceptable dial-time resource name; "" stands for none. */
  ghost predicate IsDialTime(hosts: Hosts, resource: string, key: string) {
    if VhdsResourceName(resource) in hosts then key == VhdsResourceName(resource)
    else if resource in hosts then key == resource
    else if exists k :: NamedLike(hosts, resource, k) then NamedLike(hosts, resource, key)
    else key == ""
  }

  method FindVirtualHostForChannel(hosts: Hosts, resource: string) returns (key: string)
    ensures IsDialTime(hosts, resource, key)
  {
    if VhdsResourceName(resource) in hosts {
      return VhdsResourceName(resource);
    }
    if resource in hosts {
      return resource;
    }
    var pending := hosts.Keys;
    while pending != {}
      invariant pending <= hosts.Keys
      invariant forall k | k in hosts && k !in pending :: !NamedLike(hosts, resource, k)
      decreases |pending|
    {
      var k := NextKey(pending);
      pending := pending - {k};
      if hosts[k].name == resource {
        return k;
      }
    }
    key := "";
  }

  method SortedKeys(hosts: Hosts) returns (keys: seq<string>)
    ensures Ascending(keys, StringLess)
    ensures forall k :: k in keys <==> k in hosts
  {
    keys := [];
    var pending := hosts.Keys;
    while pending != {}
      invariant pending <= hosts.Keys && NoDup(keys)
      invariant forall k :: k in keys <==> k in hosts && k !in pending
      decreases |pending|
    {
      var k := NextKey(pending);
      pending := pending - {k};
      keys := keys + [k];
    }
    ghost var was := keys;
    StringOrder();
    keys := SortSlice(keys, StringLess);
    forall k ensures k in keys <==> k in was {
      assert k in multiset(keys) <==> k in multiset(was);
    }
  }

  /** The name of an xds channel's own resource. */
  function ResourceOf(target: string): Option<string> {
    match ParseXdsTarget(target)
    case None => None
    case Some((_, resource)) => Some(VhdsResourceName(resource))
  }

  /** What a channel other than own dials over xds. */
  function DialOf(channel: Channel, own: Int64): Option<string> {
    if channel.id == own then None else ResourceOf(channel.target)
  }

  function DialsOf(channels: seq<Channel>, own: Int64): seq<Option<string>> {
    seq(|channels|, i requires 0 <= i < |channels| => DialOf(channels[i], own))
  }

  ghost predicate DialledLast(dials: seq<Option<string>>, name: string, i: int) {
    0 <= i < |dials| && dials[i] == Some(name) && forall j | i < j < |dials| :: dials[j] != Some(name)
  }

  /** others maps each dialled name to the last channel that dials it. */
  ghost predicate IsOthers(others: map<string, Int64>, dials: seq<Option<string>>, channels: seq<Channel>)
    requires |dials| <= |channels|
  {
    && (forall name | name in others :: exists i :: DialledLast(dials, name, i) && others[name] == channels[i].id)
    && (forall i | 0 <= i < |dials| && dials[i].Some? :: dials[i].value in others)
  }

  lemma OthersStep(others: map<string, Int64>, dials: seq<Option<string>>, channels: seq<Channel>, n: nat,
                   others': map<string, Int64>)
    requires n < |dials| == |channels| && IsOthers(others, dials[..n], channels)
    requires others' == if dials[n].Some? then others[dials[n].value := channels[n].id] else others
    ensures IsOthers(others', dials[..n + 1], channels)
  {
    var before, after := dials[..n], dials[..n + 1];
    forall name | name in others'
      ensures exists i :: DialledLast(after, name, i) && others'[name] == channels[i].id {
      if dials[n] == Some(name) {
        assert DialledLast(after, name, n);
      } else {
        var i :| DialledLast(before, name, i) && others[name] == channels[i].id;
        forall j | i < j < n + 1 ensures after[j] != Some(name) {
          assert j == n || after[j] == before[j];
        }
        assert DialledLast(after, name, i);
      }
    }
    forall i | 0 <= i < n + 1 && after[i].Some? ensures after[i].value in others' {
      assert i == n || after[i] == before[i];
    }
  }

  /** others is right for the first n channels. */
  ghost predicate OthersUpTo(others: map<string, Int64>, channels: seq<Channel>, own: Int64, n: nat) {
    n <= |channels| && IsOthers(others, DialsOf(channels, own)[..n], channels)
  }

  lemma AllOthers(others: map<string, Int64>, channels: seq<Channel>, own: Int64)
    requires OthersUpTo(others, channels, own, |channels|)
    ensures IsOthers(others, DialsOf(channels, own), channels)
  {
    var dials := DialsOf(channels, own);
    assert dials[..|channels|] == dials;
  }

  /** The dial-time resources of the channels other than own. */
  method OtherChannels(channels: seq<Channel>, own: Int64) returns (others: map<string, Int64>)
    ensures IsOthers(others, DialsOf(channels, own), channels)
  {
    others := map[];
    for n := 0 to |channels|
      invariant OthersUpTo(others, channels, own, n)
    {
      others := NoteChannel(others, channels, own, n);
    }
    AllOthers(others, channels, own);
  }

  /** The loop's body: a later channel replaces an earlier one. */
  method NoteChannel(others: map<string, Int64>, channels: seq<Channel>, own: Int64, n: nat)
    returns (updated: map<string, Int64>)
    requires n < |channels| && OthersUpTo(others, channels, own, n)
    ensures OthersUpTo(updated, channels, own, n + 1)
  {
    updated := others;
    var channel := channels[n];
    if channel.id != own {
      var name := ResourceOf(channel.target);
      if name.Some? {
        updated := updated[name.value := channel.id];
      }
    }
    OthersStep(others, DialsOf(channels, own), channels, n, updated);
  }

  /** slices.DeleteFunc for one value. */
  function Without(names: seq<string>, x: string): seq<string> {
    if names == [] then []
    else if names[0] == x then Without(names[1..], x)
    else [names[0]] + Without(names[1..], x)
  }

  lemma {:induction false} WithoutKeeps(names: seq<string>, x: string)
    requires Ascending(names, StringLess)
    ensures forall k :: k in Without(names, x) <==> k in names && k != x
    ensures Ascending(Without(names, x), StringLess)
  {
    if names != [] {
      assert names == [names[0]] + names[1..];
      WithoutKeeps(names[1..], x);
      var rest := Without(names[1..], x);
      forall j | 0 <= j < |rest| ensures StringLess(names[0], rest[j]) {
        assert rest[j] in rest;
        assert rest[j] in names[1..];
      }
    }
  }

  /** Dial-time first when there is one, the others in ascending order, each key once. */
  ghost predicate IsOrder(names: seq<string>, hosts: Hosts, dialTime: string) {
    && NoDup(names) && (forall k :: k in names <==> k in hosts)
    && (dialTime != "" ==> names != [] && names[0] == dialTime && Ascending(names[1..], StringLess))
    && (dialTime == "" ==> Ascending(names, StringLess))
  }

  lemma FirstThenOthers(keys: seq<string>, hosts: Hosts, dialTime: string)
    requires Ascending(keys, StringLess) && (forall k :: k in keys <==> k in hosts)
    requires dialTime != "" ==> dialTime in hosts
    ensures IsOrder(if dialTime == "" then keys else [dialTime] + Without(keys, dialTime), hosts, dialTime)
  {
    StringOrder();
    WithoutKeeps(keys, dialTime);
  }

  method OrderNames(hosts: Hosts, dialTime: string) returns (names: seq<string>)
    requires dialTime != "" ==> dialTime in hosts
    ensures IsOrder(names, hosts, dialTime)
  {
    names := SortedKeys(hosts);
    FirstThenOthers(names, hosts, dialTime);
    if dialTime != "" {
      names := [dialTime] + Without(names, dialTime);
    }
  }

  function RoleOf(name: string, dialTime: string, others: map<string, Int64>): Role {
    if name == dialTime then DialTime
    else if name in others then DialTimeOf(others[name])
    else CallTime
  }

  function SectionOf(name: string, host: VirtualHost, dialTime: string, others: map<string, Int64>): Section {
    var authority := TrimPrefix(name, SIDECAR);
    Section(name, RoleOf(name, dialTime, others), authority,
            if host.domains != [authority] then host.domains else [], host)
  }

  // ----- What a section says, read off the channels and the host -----

  /** The i-th channel is another one, and dials the resource over xds. */
  ghost predicate Dials(channels: seq<Channel>, own: Int64, resourceName: string, i: int) {
    && 0 <= i < |channels| && channels[i].id != own
    && exists authority, resource ::
         && ParseXdsTarget(channels[i].target) == Some((authority, resource))
         && resourceName == "sidecar/http2/" + resource
  }

  ghost predicate DialsLast(channels: seq<Channel>, own: Int64, resourceName: string, i: int) {
    Dials(channels, own, resourceName, i) && forall j | i < j :: !Dials(channels, own, resourceName, j)
  }

  /** The dial-time section, that of the last other channel that dials it, or a call-time one. */
  ghost predicate RoleFits(s: Section, dialTime: string, channels: seq<Channel>, own: Int64) {
    && (s.role == DialTime <==> s.resourceName == dialTime)
    && (s.resourceName != dialTime ==>
          && (forall i | DialsLast(channels, own, s.resourceName, i) :: s.role == DialTimeOf(channels[i].id))
          && ((forall i :: !Dials(channels, own, s.resourceName, i)) ==> s.role == CallTime))
  }

  /** The authority is the name without its prefix; domains are shown when they say more. */
  ghost predicate TextFits(s: Section) {
    && (forall a | s.resourceName == "sidecar/http2/" + a :: s.authority == a)
    && (!("sidecar/http2/" <= s.resourceName) ==> s.authority == s.resourceName)
    && (s.domains == if s.host.domains == [s.authority] then [] else s.host.domains)
  }

  lemma DialsAre(channels: seq<Channel>, own: Int64, name: string, i: nat)
    requires i < |channels|
    ensures Dials(channels, own, name, i) <==> DialsOf(channels, own)[i] == Some(name)
  {
    var parsed := ParseXdsTarget(channels[i].target);
    if parsed.Some? {
      assert parsed == Some((parsed.value.0, parsed.value.1));
    }
  }

  lemma OthersAreDialled(name: string, others: map<string, Int64>, channels: seq<Channel>, own: Int64)
    requires IsOthers(others, DialsOf(channels, own), channels)
    ensures forall i | DialsLast(channels, own, name, i) :: name in others && others[name] == channels[i].id
    ensures name in others ==> exists i :: Dials(channels, own, name, i)
  {
    var dials := DialsOf(channels, own);
    forall i | 0 <= i < |channels| ensures Dials(channels, own, name, i) <==> dials[i] == Some(name) {
      DialsAre(channels, own, name, i);
    }
    if name in others {
      var k :| DialledLast(dials, name, k) && others[name] == channels[k].id;
      assert Dials(channels, own, name, k);
      forall i | DialsLast(channels, own, name, i) ensures i == k {
        assert dials[i] == Some(name);
      }
    }
  }

  lemma TextOfSection(name: string, host: VirtualHost, dialTime: string, others: map<string, Int64>)
    ensures TextFits(SectionOf(name, host, dialTime, others))
  {
    assert forall a | name == SIDECAR + a :: name[|SIDECAR|..] == a;
  }

  lemma SectionFits(name: string, host: VirtualHost, dialTime: string, others: map<string, Int64>,
                    channels: seq<Channel>, own: Int64)
    requires IsOthers(others, DialsOf(channels, own), channels)
    ensures RoleFits(SectionOf(name, host, dialTime, others), dialTime, channels, own)
    ensures TextFits(SectionOf(name, host, dialTime, others))
  {
    OthersAreDialled(name, others, channels, own);
    TextOfSection(name, host, dialTime, others);
  }

  /** The sections, one for each host in the order of the names. */
  ghost predicate IsListing(sections: seq<Section>, hosts: Hosts, dialTime: string, others: map<string, Int64>) {
    && IsOrder(NamesOf(sections), hosts, dialTime)
    && forall i | 0 <= i < |sections| :: sections[i].resourceName in hosts
         && sections[i] == SectionOf(sections[i].resourceName, hosts[sections[i].resourceName], dialTime, others)
  }

  ghost function NamesOf(sections: seq<Section>): seq<string> {
    seq(|sections|, i requires 0 <= i < |sections| => sections[i].resourceName)
  }

  /** The data of the two pages: an error, or the listing; a missing match is reported with it. */
  datatype VirtualHostsPage =
    | NoChannel
    | NotXds
    | StatusError
    | Listed(resource: string, dialTime: string, sections: seq<Section>)

  /** `target` is the channel's, if there is such a channel; hosts and others are what the page
      was made from. */
  method GetXdsVirtualHost(target: Option<string>, status: ClientStatus, channels: seq<Channel>, own: Int64)
    returns (d: VirtualHostsPage, ghost hosts: Hosts, ghost others: map<string, Int64>)
    ensures d.NoChannel? <==> target.None?
    ensures d.NotXds? <==> target.Some? && ParseXdsTarget(target.value).None?
    ensures d.StatusError? <==> target.Some? && ParseXdsTarget(target.value).Some? && status.FetchFailed?
    ensures d.Listed? ==> ParseXdsTarget(target.value).value.1 == d.resource
    ensures d.Listed? ==> IndexesByName(hosts, status.configs, DecodeVirtualHost)
    ensures d.Listed? ==> IsDialTime(hosts, d.resource, d.dialTime)
    ensures d.Listed? ==> IsOthers(others, DialsOf(channels, own), channels)
    ensures d.Listed? ==> IsListing(d.sections, hosts, d.dialTime, others) && NoDup(NamesOf(d.sections))
    ensures d.Listed? ==> forall s | s in d.sections :: RoleFits(s, d.dialTime, channels, own) && TextFits(s)
  {
    hosts, others := map[], map[];
    if target.None? {
      return NoChannel, hosts, others;
    }
    var parsed := ParseXdsTarget(target.value);
    if parsed.None? {
      return NotXds, hosts, others;
    }
    if status.FetchFailed? {
      return StatusError, hosts, others;
    }
    var resources := NewXdsResources(status.configs);
    hosts := resources.virtualHosts;
    d, others := ListHosts(resources.virtualHosts, parsed.value.1, channels, own);
    forall s | s in d.sections ensures RoleFits(s, d.dialTime, channels, own) && TextFits(s) {
      SectionFits(s.resourceName, hosts[s.resourceName], d.dialTime, others, channels, own);
    }
  }

  method ListHosts(hosts: Hosts, resource: string, channels: seq<Channel>, own: Int64)
    returns (d: VirtualHostsPage, ghost others: map<string, Int64>)
    ensures d.Listed? && d.resource == resource && IsDialTime(hosts, resource, d.dialTime)
    ensures IsOthers(others, DialsOf(channels, own), channels)
    ensures IsListing(d.sections, hosts, d.dialTime, others)
  {
    var dialTime := FindVirtualHostForChannel(hosts, resource);
    var known := OtherChannels(channels, own);
    others := known;
    var names := OrderNames(hosts, dialTime);
    var sections := BuildSections(names, hosts, dialTime, known);
    assert NamesOf(sections) == names;
    d := Listed(resource, dialTime, sections);
  }

  method BuildSections(names: seq<string>, hosts: Hosts, dialTime: string, others: map<string, Int64>)
    returns (sections: seq<Section>)
    requires forall i | 0 <= i < |names| :: names[i] in hosts
    ensures |sections| == |names|
    ensures forall i | 0 <= i < |names| :: sections[i] == SectionOf(names[i], hosts[names[i]], dialTime, others)
  {
    sections := [];
    for n := 0 to |names|
      invariant |sections| == n
      invariant forall i | 0 <= i < n :: sections[i] == SectionOf(names[i], hosts[names[i]], dialTime, others)
    {
      var host := hosts[names[n]];
      var authority := TrimPrefix(names[n], SIDECAR);
      var section := Section(names[n], CallTime, authority, [], host);
      if host.domains != [authority] {
        section := section.(domains := host.domains);
      }
      if names[n] == dialTime {
        section := section.(role := DialTime);
      } else if names[n] in others {
        section := section.(role := DialTimeOf(others[names[n]]));
      }
      sections := sections + [section];
    }
  }

  /** The detail page's loop over the sections. */
  method FindSection(sections: seq<Section>, name: string) returns (found: Option<Section>)
    ensures found.Some? <==> name in NamesOf(sections)
    ensures found.Some? ==> found.value in sections && found.value.resourceName == name
  {
    found := None;
    for i := 0 to |sections|
      invariant found.Some? <==> exists j :: 0 <= j < i && sections[j].resourceName == name
      invariant found.Some? ==> found.value in sections && found.value.resourceName == name
    {
      if sections[i].resourceName == name {
        found := Some(sections[i]);
      }
    }
    assert forall j | 0 <= j < |sections| :: NamesOf(sections)[j] == sections[j].resourceName;
  }

  /** The detail page of one host: its section, and whether an error is reported. */
  method XdsVirtualHostDetail(target: Option<string>, status: ClientStatus, channels: seq<Channel>, own: Int64,
                              name: string)
    returns (found: Option<Section>, error: bool, d: VirtualHostsPage,
             ghost hosts: Hosts, ghost others: map<string, Int64>)
    ensures d.Listed? <==> target.Some? && ParseXdsTarget(target.value).Some? && status.Fetched?
    ensures d.Listed? ==> IndexesByName(hosts, status.configs, DecodeVirtualHost)
    ensures d.Listed? ==> IsDialTime(hosts, d.resource, d.dialTime)
    ensures d.Listed? ==> IsOthers(others, DialsOf(channels, own), channels)
    ensures found.Some? <==> d.Listed? && name in hosts
    ensures found.Some? ==> found.value == SectionOf(name, hosts[name], d.dialTime, others)
    ensures found.Some? ==> RoleFits(found.value, d.dialTime, channels, own) && TextFits(found.value)
    ensures !error <==> found.Some? && d.dialTime != ""
  {
    d, hosts, others := GetXdsVirtualHost(target, status, channels, own);
    found, error := None, true;
    if d.Listed? {
      found := FindSection(d.sections, name);
      error := d.dialTime == "" || found.None?;
    }
  }

  ghost predicate HasDialTime(sections: seq<Section>) {
    exists i :: 0 <= i < |sections| && sections[i].role.DialTime?
  }

  /** There is one dial-time section if the dial-time key is in the dump, none otherwise. */
  lemma DialTimeRole(sections: seq<Section>, hosts: Hosts, dialTime: string, others: map<string, Int64>)
    requires IsListing(sections, hosts, dialTime, others)
    ensures HasDialTime(sections) <==> dialTime in hosts
    ensures forall i, j | 0 <= i < |sections| && 0 <= j < |sections|
              && sections[i].role.DialTime? && sections[j].role.DialTime? :: i == j
  {
    var names := NamesOf(sections);
    forall i | 0 <= i < |sections| ensures sections[i].role.DialTime? <==> names[i] == dialTime {
    }
    if dialTime in hosts {
      assert dialTime in names;
      var i :| 0 <= i < |sections| && names[i] == dialTime;
      assert sections[i].role.DialTime?;
    }
    forall i | 0 <= i < |sections| && sections[i].role.DialTime? ensures dialTime in hosts {
      assert names[i] in names;
    }
  }

  // ----- When the page contradicts itself -----

  /** The dump has a host of empty name, and no lookup prefers another one. */
  ghost predicate EmptyNameMisleads(hosts: Hosts, resource: string) {
    && "" in hosts && VhdsResourceName(resource) !in hosts
    && (resource == ""
        || (resource !in hosts && (hosts[""].name == resource || forall k :: !NamedLike(hosts, resource, k))))
  }

  ghost predicate AreKeys(keys: seq<string>, hosts: Hosts) {
    Ascending(keys, StringLess) && forall k :: k in keys <==> k in hosts
  }

  lemma SomeKeys(hosts: Hosts)
    ensures exists keys :: AreKeys(keys, hosts)
  {
    var listed := SomeListing(hosts.Keys);
    StringOrder();
    SomeSorting(listed, StringLess);
    var keys :| IsSorting(keys, listed, StringLess);
    forall k ensures k in keys <==> k in hosts {
      assert k in multiset(keys) <==> k in multiset(listed);
    }
    assert AreKeys(keys, hosts);
  }

  lemma SomePage(hosts: Hosts, others: map<string, Int64>)
    ensures exists sections :: IsListing(sections, hosts, "", others)
  {
    SomeKeys(hosts);
    var keys :| AreKeys(keys, hosts);
    FirstThenOthers(keys, hosts, "");
    forall i | 0 <= i < |keys| ensures keys[i] in hosts {
      assert keys[i] in keys;
    }
    var sections := seq(|keys|, i requires 0 <= i < |keys| => SectionOf(keys[i], hosts[keys[i]], "", others));
    assert NamesOf(sections) == keys;
    assert IsListing(sections, hosts, "", others);
  }

  /** A page that shows a dial-time section although it reports that none matches, or none
      although it reports none missing. */
  ghost predicate Contradicts(sections: seq<Section>, hosts: Hosts, resource: string, dialTime: string,
                              others: map<string, Int64>) {
    && IsDialTime(hosts, resource, dialTime) && IsListing(sections, hosts, dialTime, others)
    && !(HasDialTime(sections) <==> dialTime != "")
  }

  /** Whatever the iteration order, every page for the resource agrees with itself if and only
      if the dump does not have such a host of empty name. */
  lemma RoleAgreesExactly(hosts: Hosts, resource: string)
    ensures (exists sections, dialTime, others :: Contradicts(sections, hosts, resource, dialTime, others))
      <==> EmptyNameMisleads(hosts, resource)
  {
    forall sections, dialTime, others | Contradicts(sections, hosts, resource, dialTime, others)
      ensures EmptyNameMisleads(hosts, resource) {
      DialTimeRole(sections, hosts, dialTime, others);
    }
    if EmptyNameMisleads(hosts, resource) {
      SomePage(hosts, map[]);
      var sections :| IsListing(sections, hosts, "", map[]);
      DialTimeRole(sections, hosts, "", map[]);
      assert Contradicts(sections, hosts, resource, "", map[]);
    }
  }

  /** Such a dump: the only host has an empty name and is not for the channel's resource. */
  lemma EmptyNameExample()
    ensures var hosts: Hosts := map["" := VirtualHost("other", [], [])];
      exists sections, dialTime, others :: Contradicts(sections, hosts, "svc", dialTime, others)
  {
    var hosts: Hosts := map["" := VirtualHost("other", [], [])];
    assert VhdsResourceName("svc") != "";
    assert hosts[""].name != "svc";
    RoleAgreesExactly(hosts, "svc");
  }
}
