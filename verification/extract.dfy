/** `processContainer` (main.go): from one container's labels and
    networks, the group key and one endpoint per attached network, or the
    reason the container is skipped.

    The Go code panics on every failure and recovers in a deferred
    function that logs `container.Names[0][1:]`. When the container has
    no names, or its first name is empty, that expression panics again
    inside the deferred function, the new panic is not recovered, and the
    controller dies: that outcome is `Crashed`. The same expression is
    evaluated when building each endpoint, so a well-labelled container
    with such a name crashes as soon as it has a network. */
module Extract {
  import opened Options
  import opened Decimal
  import opened Model

  const PublishLabel := "lb.publish"
  const TargetLabel := "lb.target"
  const DstAddrLabel := "lb.dst_addr"
  const SslLabel := "lb.ssl"

  datatype SkipReason = BadPublish | BadTarget | MissingSslFile(path: string)

  datatype Outcome =
    | Extracted(key: GroupKey, endpoints: seq<Endpoint>)
    | Skipped(reason: SkipReason)
    | Crashed

  /** `container.Names[0][1:]` can be evaluated without a panic. */
  predicate NameReadable(c: Container) {
    |c.names| > 0 && |c.names[0]| > 0
  }

  /** The backend name: the first container name without its leading
      character (Docker's `/`). */
  function BackendName(c: Container): string
    requires NameReadable(c)
  {
    c.names[0][1..]
  }

  /** The label checks in the order main.go makes them; `sslExists`
      stands for `os.Stat` not reporting the file as missing. */
  function CheckLabels(c: Container, sslExists: string -> bool): (r: Option<SkipReason>)
  {
    if Atoi(Label(c, PublishLabel)).None? then Some(BadPublish)
    else if Atoi(Label(c, TargetLabel)).None? then Some(BadTarget)
    else if |Label(c, SslLabel)| != 0 && !sslExists(Label(c, SslLabel)) then Some(MissingSslFile(Label(c, SslLabel)))
    else None
  }

  function ProcessContainer(c: Container, sslExists: string -> bool): (o: Outcome)
    // which of the three outcomes happens
    ensures o.Crashed? <==> !NameReadable(c) && (CheckLabels(c, sslExists).Some? || |c.networks| > 0)
    ensures o.Skipped? <==> NameReadable(c) && CheckLabels(c, sslExists).Some?
    // a skip names the first label that failed
    ensures o.Skipped? && o.reason == BadPublish <==> NameReadable(c) && Atoi(Label(c, PublishLabel)).None?
    ensures o.Skipped? && o.reason == BadTarget <==>
      NameReadable(c) && Atoi(Label(c, PublishLabel)).Some? && Atoi(Label(c, TargetLabel)).None?
    ensures o.Skipped? && o.reason.MissingSslFile? ==>
      Label(c, SslLabel) != "" && !sslExists(Label(c, SslLabel)) && o.reason.path == Label(c, SslLabel)
    // the key of an extracted container
    ensures o.Extracted? ==> Atoi(Label(c, PublishLabel)) == Some(o.key.port)
    ensures o.Extracted? ==> o.key.ip == Label(c, DstAddrLabel)
    ensures o.Extracted? ==> o.key.ssl == Label(c, SslLabel)
    ensures o.Extracted? && o.key.ssl != "" ==> sslExists(o.key.ssl)
    // one endpoint per network, all named after the container, all on the target port
    ensures o.Extracted? ==> |o.endpoints| == |c.networks|
    ensures o.Extracted? ==> forall i :: 0 <= i < |o.endpoints| ==>
      o.endpoints[i].ip == c.networks[i]
      && Atoi(Label(c, TargetLabel)) == Some(o.endpoints[i].port)
      && NameReadable(c) && o.endpoints[i].name == BackendName(c)
  {
    match CheckLabels(c, sslExists)
    case Some(reason) =>
      if NameReadable(c) then Skipped(reason) else Crashed
    case None =>
      var publish := Atoi(Label(c, PublishLabel)).value;
      var target := Atoi(Label(c, TargetLabel)).value;
      var key := GroupKey(publish, Label(c, DstAddrLabel), Label(c, SslLabel));
      if |c.networks| == 0 then
        Extracted(key, [])
      else if !NameReadable(c) then
        Crashed
      else
        Extracted(key, seq(|c.networks|, i requires 0 <= i < |c.networks| => Endpoint(BackendName(c), c.networks[i], target)))
  }
}
