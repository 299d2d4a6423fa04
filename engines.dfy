/**
 * `get_engines`: reads the coordinator's cluster list and reduces each
 * cluster to the four fields the client reports.
 */
module Engines {
  import opened Common

  datatype AwsProps = AwsProps(instanceType: string)
  datatype DynamicConfig = DynamicConfig(containerCount: int)

  /** The fields of one entry of `clusterList` that the client reads. */
  datatype Cluster = Cluster(
    name: string,
    awsProps: AwsProps,
    dynamicConfig: DynamicConfig,
    shutdownInterval: int)

  /** The descriptor the client reports for an engine; `size` is the node count. */
  datatype Engine = Engine(name: string, instanceType: string, size: int, shutdownInterval: int)

  /** `GET_ENGINES.format(coordinator)` */
  function EnginesUrl(coordinator: string): string
  {
    "http://" + coordinator + ":9047/apiv2/provision/clusters"
  }

  /**
   * `get_engines`. The coordinator's API is the parameter `get`: `None` for
   * a falsy answer, otherwise the `clusterList` of the reply.
   */
  method GetEngines(coordinator: string, get: string -> Option<seq<Cluster>>) returns (d: seq<Engine>)
    ensures get(EnginesUrl(coordinator)).None? ==> d == []
    ensures get(EnginesUrl(coordinator)).Some? ==>
      var clusters := get(EnginesUrl(coordinator)).value;
      |d| == |clusters| &&
      forall i :: 0 <= i < |d| ==>
        d[i].name == clusters[i].name &&
        d[i].instanceType == clusters[i].awsProps.instanceType &&
        d[i].size == clusters[i].dynamicConfig.containerCount &&
        d[i].shutdownInterval == clusters[i].shutdownInterval
  {
    d := [];
    var res := get(EnginesUrl(coordinator));
    if res.Some? {
      var clusters := res.value;
      for k := 0 to |clusters|
        invariant |d| == k
        invariant forall i :: 0 <= i < k ==>
          d[i].name == clusters[i].name &&
          d[i].instanceType == clusters[i].awsProps.instanceType &&
          d[i].size == clusters[i].dynamicConfig.containerCount &&
          d[i].shutdownInterval == clusters[i].shutdownInterval
      {
        var cluster := clusters[k];
        d := d + [Engine(cluster.name, cluster.awsProps.instanceType,
                         cluster.dynamicConfig.containerCount, cluster.shutdownInterval)];
      }
    }
  }
}
