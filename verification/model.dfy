/** The records the controller works with, as declared at the top of
    main.go, and the slice of Docker's container summary it reads. */
module Model {

  /** One reachable target: one container on one attached network. */
  datatype Endpoint = Endpoint(name: string, ip: string, port: int)

  /** The listening socket a frontend publishes: its port, the bind
      address from `lb.dst_addr` ("" = every address) and the certificate
      path from `lb.ssl` ("" = plain). */
  datatype GroupKey = GroupKey(port: int, ip: string, ssl: string)

  datatype ServiceConfiguration = ServiceConfiguration(publish: GroupKey, backends: seq<Endpoint>)

  /** What the template sees; a stats port of zero or less disables the
      statistics listener. */
  datatype WholeConfiguration = WholeConfiguration(services: seq<ServiceConfiguration>, statsPort: int)

  /** A container as the Docker list call reports it: its names (each
      with Docker's leading `/`), its labels, and the IP address it has on
      each attached network, in the order the networks are enumerated. */
  datatype Container = Container(names: seq<string>, labels: map<string, string>, networks: seq<string>)

  /** Go's map lookup: a missing label reads as the empty string. */
  function Label(c: Container, name: string): (v: string)
    ensures name !in c.labels ==> v == ""
  {
    if name in c.labels then c.labels[name] else ""
  }

  function NameOf(e: Endpoint): string {
    e.name
  }
}
