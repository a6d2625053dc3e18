/** The part of a client-status dump that the pages read, and its indexing by name. */
module Xds {
  import opened Prelude
  import opened HostPort

  datatype Endpoint = Endpoint(address: Option<SocketAddress>, health: string, weight: UInt32)

  datatype LocalityEndpoints = LocalityEndpoints(
    locality: string, priority: UInt32, weight: UInt32, endpoints: seq<Endpoint>)

  datatype Assignment = Assignment(localities: seq<LocalityEndpoints>)

  datatype DiscoveryType = Static | StrictDns | LogicalDns | Eds | OriginalDst

  datatype Cluster = Cluster(
    name: string, kind: DiscoveryType,
    edsConfig: Option<string>,       // eds_cluster_config.service_name when the config is set
    inline: Option<Assignment>)      // load_assignment

  datatype VirtualHost = VirtualHost(name: string, domains: seq<string>, routes: seq<string>)

  /** What a google.protobuf.Any holds: some message, or bytes that do not decode. */
  datatype Payload =
    | Undecodable
    | OfVirtualHost(virtualHost: VirtualHost)
    | OfCluster(cluster: Cluster)
    | OfAssignment(assignment: Assignment)

  datatype GenericXdsConfig = GenericXdsConfig(typeUrl: string, name: string, config: Option<Payload>)

  datatype Resources = Resources(
    virtualHosts: map<string, VirtualHost>,
    clusters: map<string, Cluster>,
    endpoints: map<string, Assignment>)

  /** What fetchClientStatus returns; no config at all counts as one without entries. */
  datatype ClientStatus = FetchFailed | Fetched(configs: seq<GenericXdsConfig>)

  const VIRTUAL_HOST_TYPE_URL := "type.googleapis.com/envoy.config.route.v3.VirtualHost"
  const CLUSTER_TYPE_URL := "type.googleapis.com/envoy.config.cluster.v3.Cluster"
  const ENDPOINT_TYPE_URL := "type.googleapis.com/envoy.config.endpoint.v3.ClusterLoadAssignment"

  function DecodeVirtualHost(gx: GenericXdsConfig): Option<VirtualHost> {
    if gx.typeUrl == VIRTUAL_HOST_TYPE_URL && gx.config.Some? && gx.config.value.OfVirtualHost?
    then Some(gx.config.value.virtualHost) else None
  }

  function DecodeCluster(gx: GenericXdsConfig): Option<Cluster> {
    if gx.typeUrl == CLUSTER_TYPE_URL && gx.config.Some? && gx.config.value.OfCluster?
    then Some(gx.config.value.cluster) else None
  }

  function DecodeAssignment(gx: GenericXdsConfig): Option<Assignment> {
    if gx.typeUrl == ENDPOINT_TYPE_URL && gx.config.Some? && gx.config.value.OfAssignment?
    then Some(gx.config.value.assignment) else None
  }

  /** v is what the last decodable config called name holds. */
  ghost predicate IsLast<V>(configs: seq<GenericXdsConfig>, decode: GenericXdsConfig -> Option<V>,
                            name: string, v: V) {
    exists i :: 0 <= i < |configs| && configs[i].name == name && decode(configs[i]) == Some(v)
      && forall j | i < j < |configs| :: configs[j].name == name ==> decode(configs[j]).None?
  }

  ghost predicate IndexesByName<V>(m: map<string, V>, configs: seq<GenericXdsConfig>,
                                   decode: GenericXdsConfig -> Option<V>) {
    && (forall name | name in m :: IsLast(configs, decode, name, m[name]))
    && (forall i | 0 <= i < |configs| && decode(configs[i]).Some? :: configs[i].name in m)
  }

  ghost predicate IsResources(r: Resources, configs: seq<GenericXdsConfig>) {
    && IndexesByName(r.virtualHosts, configs, DecodeVirtualHost)
    && IndexesByName(r.clusters, configs, DecodeCluster)
    && IndexesByName(r.endpoints, configs, DecodeAssignment)
  }

  /** One step of the indexing loop: a decodable config overwrites, any other leaves the map. */
  lemma IndexStep<V>(m: map<string, V>, configs: seq<GenericXdsConfig>, n: nat,
                     decode: GenericXdsConfig -> Option<V>, m': map<string, V>)
    requires n < |configs| && IndexesByName(m, configs[..n], decode)
    requires m' == match decode(configs[n]) case Some(v) => m[configs[n].name := v] case None => m
    ensures IndexesByName(m', configs[..n + 1], decode)
  {
    var before, after := configs[..n], configs[..n + 1];
    forall name | name in m' ensures IsLast(after, decode, name, m'[name]) {
      if decode(configs[n]).Some? && name == configs[n].name {
        assert after[n] == configs[n];
      } else {
        assert IsLast(before, decode, name, m[name]);
        var i :| 0 <= i < n && before[i].name == name && decode(before[i]) == Some(m[name])
          && forall j | i < j < n :: before[j].name == name ==> decode(before[j]).None?;
        assert after[i] == before[i];
        forall j | i < j < n + 1 ensures after[j].name == name ==> decode(after[j]).None? {
          if j < n { assert after[j] == before[j]; }
        }
      }
    }
    forall i | 0 <= i < n + 1 && decode(after[i]).Some? ensures after[i].name in m' {
      if i < n { assert after[i] == before[i]; }
    }
  }

  /** Index a dump by type and name; a nil config (here no entries) gives empty maps. */
  method NewXdsResources(configs: seq<GenericXdsConfig>) returns (r: Resources)
    ensures IsResources(r, configs)
  {
    r := Resources(map[], map[], map[]);
    for n := 0 to |configs|
      invariant IsResources(r, configs[..n])
    {
      ghost var was := r;
      var gx := configs[n];
      if gx.config.Some? {
        if gx.typeUrl == VIRTUAL_HOST_TYPE_URL {
          if gx.config.value.OfVirtualHost? {
            r := r.(virtualHosts := r.virtualHosts[gx.name := gx.config.value.virtualHost]);
          }
        } else if gx.typeUrl == CLUSTER_TYPE_URL {
          if gx.config.value.OfCluster? {
            r := r.(clusters := r.clusters[gx.name := gx.config.value.cluster]);
          }
        } else if gx.typeUrl == ENDPOINT_TYPE_URL {
          if gx.config.value.OfAssignment? {
            r := r.(endpoints := r.endpoints[gx.name := gx.config.value.assignment]);
          }
        }
      }
      IndexStep(was.virtualHosts, configs, n, DecodeVirtualHost, r.virtualHosts);
      IndexStep(was.clusters, configs, n, DecodeCluster, r.clusters);
      IndexStep(was.endpoints, configs, n, DecodeAssignment, r.endpoints);
    }
    assert configs[..|configs|] == configs;
  }

  lemma IndexUnique<V>(m: map<string, V>, m': map<string, V>, configs: seq<GenericXdsConfig>,
                       decode: GenericXdsConfig -> Option<V>)
    requires IndexesByName(m, configs, decode) && IndexesByName(m', configs, decode)
    ensures m == m'
  {
    forall name ensures name in m <==> name in m' {
      if name in m { assert IsLast(configs, decode, name, m[name]); }
      if name in m' { assert IsLast(configs, decode, name, m'[name]); }
    }
    forall name | name in m && name in m' ensures m[name] == m'[name] {
      assert IsLast(configs, decode, name, m[name]) && IsLast(configs, decode, name, m'[name]);
    }
  }

  /** The dump determines its index. */
  lemma ResourcesUnique(r: Resources, r': Resources, configs: seq<GenericXdsConfig>)
    requires IsResources(r, configs) && IsResources(r', configs)
    ensures r == r'
  {
    IndexUnique(r.virtualHosts, r'.virtualHosts, configs, DecodeVirtualHost);
    IndexUnique(r.clusters, r'.clusters, configs, DecodeCluster);
    IndexUnique(r.endpoints, r'.endpoints, configs, DecodeAssignment);
  }

  lemma KeyDecodes<V>(m: map<string, V>, configs: seq<GenericXdsConfig>, decode: GenericXdsConfig -> Option<V>,
                      name: string)
    requires IndexesByName(m, configs, decode)
    ensures name in m <==> exists i :: 0 <= i < |configs| && configs[i].name == name && decode(configs[i]).Some?
  {
    assert name in m ==> IsLast(configs, decode, name, m[name]);
  }

  ghost predicate IsVirtualHostConfig(gx: GenericXdsConfig, name: string) {
    && gx.name == name && gx.typeUrl == "type.googleapis.com/envoy.config.route.v3.VirtualHost"
    && gx.config.Some? && gx.config.value.OfVirtualHost?
  }

  /** A name is in the map of a type exactly when a config with the type's own URL decodes under it. */
  lemma VirtualHostsByType(r: Resources, configs: seq<GenericXdsConfig>, name: string)
    requires IsResources(r, configs)
    ensures name in r.virtualHosts <==> exists i :: 0 <= i < |configs| && IsVirtualHostConfig(configs[i], name)
  {
    KeyDecodes(r.virtualHosts, configs, DecodeVirtualHost, name);
    forall i | 0 <= i < |configs|
      ensures IsVirtualHostConfig(configs[i], name)
        <==> configs[i].name == name && DecodeVirtualHost(configs[i]).Some? {
    }
  }

  ghost predicate IsClusterConfig(gx: GenericXdsConfig, name: string) {
    && gx.name == name && gx.typeUrl == "type.googleapis.com/envoy.config.cluster.v3.Cluster"
    && gx.config.Some? && gx.config.value.OfCluster?
  }

  lemma ClustersByType(r: Resources, configs: seq<GenericXdsConfig>, name: string)
    requires IsResources(r, configs)
    ensures name in r.clusters <==> exists i :: 0 <= i < |configs| && IsClusterConfig(configs[i], name)
  {
    KeyDecodes(r.clusters, configs, DecodeCluster, name);
    forall i | 0 <= i < |configs|
      ensures IsClusterConfig(configs[i], name) <==> configs[i].name == name && DecodeCluster(configs[i]).Some? {
    }
  }

  ghost predicate IsAssignmentConfig(gx: GenericXdsConfig, name: string) {
    && gx.name == name && gx.typeUrl == "type.googleapis.com/envoy.config.endpoint.v3.ClusterLoadAssignment"
    && gx.config.Some? && gx.config.value.OfAssignment?
  }

  lemma AssignmentsByType(r: Resources, configs: seq<GenericXdsConfig>, name: string)
    requires IsResources(r, configs)
    ensures name in r.endpoints <==> exists i :: 0 <= i < |configs| && IsAssignmentConfig(configs[i], name)
  {
    KeyDecodes(r.endpoints, configs, DecodeAssignment, name);
    forall i | 0 <= i < |configs|
      ensures IsAssignmentConfig(configs[i], name) <==> configs[i].name == name && DecodeAssignment(configs[i]).Some? {
    }
  }

  /** The EDS resource a cluster reads: its service name, or its own name by default. */
  function EdsServiceName(c: Cluster): string {
    if c.edsConfig.Some? && c.edsConfig.value != "" then c.edsConfig.value else c.name
  }

  predicate IsDns(c: Cluster) { c.kind == StrictDns || c.kind == LogicalDns }

  function FormatEndpoint(e: Endpoint): string { FormatSocketAddress(e.address) }

  /** The configured port; 0 when there is no socket address. */
  function PortOf(e: Endpoint): UInt32 {
    if e.address.Some? then e.address.value.port else 0
  }

  /** Every endpoint of an assignment, in order, with repetitions. */
  function EndpointsOf(localities: seq<LocalityEndpoints>): seq<Endpoint> {
    if localities == [] then []
    else EndpointsOf(localities[..|localities| - 1]) + localities[|localities| - 1].endpoints
  }

  /** The endpoints configured inline on a cluster. */
  function InlineEndpoints(c: Cluster): seq<Endpoint> {
    if c.inline.Some? then EndpointsOf(c.inline.value.localities) else []
  }
}
