/** The custom resources, reduced to the fields the operator reads or writes. */
module Api {
  import opened Common

  type int32 = x: int | -0x8000_0000 <= x <= 0x7fff_ffff

  /** A namespaced name; also the reference to a load balancer in a status. */
  datatype Key = Key(namespace: string, name: string)

  type Labels = map<string, string>

  /** The text of a label selector; evaluating it is left to a parameter. */
  type Selector = string

  /** `uid` and `version` are the identity and the resource version that the
      API server assigns; `lb` and `port` are the status. */
  datatype Frontend = Frontend(
    key: Key, uid: nat, version: nat,
    servicePort: int32, selector: Selector,
    lb: Option<Key>, port: Option<int32>)

  datatype Server = Server(name: string, address: string, port: int)

  datatype Backend = Backend(name: string, labels: Labels, host: string, servers: seq<Server>)

  datatype LoadBalancer = LoadBalancer(key: Key, replicas: int32)
}
