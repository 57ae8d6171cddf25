/** `generateHAProxyConfig` (main.go): the built-in `text/template`
    executed on the services, the stats port and the pid and socket
    paths. The template is written out piece by piece; every constant
    below is template text verbatim. A template action on an `int` prints
    it as `strconv.Itoa` does, and `{{if x}}` on a string is true when the
    string is not empty. */
module Render {
  import opened Decimal
  import opened Strings
  import opened Model

  /** The longer runs of fixed text in the template, each lying between
      two of its actions; the short separators around the values are
      written inline in the functions below. */
  datatype Template = Template(
    global: string,
    socketOptions: string,
    defaults: string,
    statsHead: string,
    statsOptions: string,
    defaultBackend: string,
    backendSection: string,
    backendOptions: string)

  /** The template built into main.go, verbatim. */
  const GlobalText := "\nglobal\n   daemon\n   stats socket "
  const SocketOptionsText := " mode 600 expose-fd listeners level user\n   stats timeout 30s \n   pidfile "

  /** The end of `global` and the `defaults` section, one constant per line. */
  const DefaultsStart := "\n   log /dev/log local0 debug\n\ndefaults"
  const DefaultsMode := "\n    mode                    http"
  const DefaultsLog := "\n    log                     global"
  const DefaultsOptionHttplog := "\n    option                  httplog"
  const DefaultsOptionDontlognull := "\n    option                  dontlognull"
  const DefaultsOptionHttpServerClose := "\n    option                  http-server-close"
  const DefaultsOptionRedispatch := "\n    option                  redispatch"
  const DefaultsOptionForwardfor := "\n    option                  forwardfor"
  const DefaultsOptionOriginalto := "\n    option                  originalto"
  const DefaultsCompressionAlgo := "\n    compression algo        gzip"
  const DefaultsCompressionType := "\n    compression type        text/css text/html text/javascript application/javascript text/plain text/xml application/json"
  const DefaultsRetries := "\n    retries                 3"
  const DefaultsTimeoutHttpRequest := "\n    timeout http-request    10s"
  const DefaultsTimeoutQueue := "\n    timeout queue           1m"
  const DefaultsTimeoutConnect := "\n    timeout connect         10s"
  const DefaultsTimeoutClient := "\n    timeout client          1m"
  const DefaultsTimeoutServer := "\n    timeout server          1m"
  const DefaultsTimeoutHttpKeepAlive := "\n    timeout http-keep-alive 10s"
  const DefaultsTimeoutCheck := "\n    timeout check           10s"
  const DefaultsMaxconn := "\n    maxconn                 3000"
  const DefaultsText :=
    DefaultsStart
    + DefaultsMode + DefaultsLog + DefaultsOptionHttplog
    + DefaultsOptionDontlognull + DefaultsOptionHttpServerClose + DefaultsOptionRedispatch
    + DefaultsOptionForwardfor + DefaultsOptionOriginalto + DefaultsCompressionAlgo
    + DefaultsCompressionType + DefaultsRetries + DefaultsTimeoutHttpRequest
    + DefaultsTimeoutQueue + DefaultsTimeoutConnect + DefaultsTimeoutClient
    + DefaultsTimeoutServer + DefaultsTimeoutHttpKeepAlive + DefaultsTimeoutCheck
    + DefaultsMaxconn

  const StatsHeadText := "\n\nlisten stats\n    bind *:"
  const StatsOptionsText := "    stats enable\n    stats hide-version\n    stats refresh 5s\n    stats show-node\n    stats uri  /"
  const DefaultBackendText := "    default_backend port_"
  const BackendSectionText := "_backends\n    rspdel ^ETag:.*\n\nbackend port_"
  const BackendOptionsText := "_backends\n    balance leastconn\n    stick-table type ip size 200k expire 520m    \n    stick on src\n    "

  const BuiltIn := Template(
    GlobalText,
    SocketOptionsText,
    DefaultsText,
    StatsHeadText,
    StatsOptionsText,
    DefaultBackendText,
    BackendSectionText,
    BackendOptionsText)

  /** What the proofs need of the fixed text: the stats listener starts,
      after two line breaks, with a letter no service block starts with. */
  predicate Usable(t: Template) {
    |t.statsHead| > 2 && t.statsHead[2] == 'l'
  }

  lemma BuiltInUsable()
    ensures Usable(BuiltIn)
  {
    StatsHeadUsable();
  }

  lemma StatsHeadUsable()
    ensures |StatsHeadText| > 2 && StatsHeadText[2] == 'l'
  {
  }

  /** The `global` and `defaults` sections. */
  function Header(t: Template, sockFile: string, pidFile: string): string {
    t.global + sockFile + t.socketOptions + pidFile + t.defaults
  }

  /** `{{if .Stats}}…{{end}}`: `Stats` is "Y" exactly when the port is positive. */
  function StatsSection(t: Template, statsPort: int): (r: string)
    ensures statsPort <= 0 ==> r == ""
  {
    if statsPort > 0 then t.statsHead + Itoa(statsPort) + "\n" + t.statsOptions else ""
  }

  /** `server {{.Name}} {{.IP}}:{{.Port}} ` and the line break and tab
      that follow it inside the range. */
  function ServerLine(e: Endpoint): (r: string)
    ensures |r| > 0 && r[0] == 's'
  {
    "server " + e.name + " " + e.ip + ":" + Itoa(e.port) + " \n\t"
  }

  function ServerLines(bs: seq<Endpoint>): string
    decreases |bs|
  {
    if |bs| == 0 then "" else ServerLine(bs[0]) + ServerLines(bs[1..])
  }

  function BindAddress(k: GroupKey): string {
    if k.ip == "" then "*" else k.ip
  }

  function SslOption(k: GroupKey): (r: string)
    ensures r == "" <==> k.ssl == ""
  {
    if k.ssl == "" then "" else " ssl crt " + k.ssl
  }

  /** The frontend, named `port_<IP>_<Port>`, and its bind line. */
  function FrontendSection(k: GroupKey): (r: string)
    ensures |r| > 0 && r[0] == 'f'
  {
    "frontend port_" + k.ip + "_" + Itoa(k.port) + "\n    bind " + BindAddress(k) + ":" + Itoa(k.port) + SslOption(k) + "\n"
  }

  /** The frontend's default backend and the backend, `port_<IP>_<Port>_backends`, up to its servers. */
  function BackendHead(t: Template, k: GroupKey): string {
    t.defaultBackend + k.ip + "_" + Itoa(k.port) + t.backendSection + k.ip + "_" + Itoa(k.port) + t.backendOptions
  }

  /** One iteration of `{{range $_, $value := .Services}}`. */
  function Block(t: Template, s: ServiceConfiguration): (r: string)
    ensures |r| > 0 && r[0] == 'f'
  {
    FrontendSection(s.publish) + BackendHead(t, s.publish) + ServerLines(s.backends) + "\n"
  }

  function Blocks(t: Template, ss: seq<ServiceConfiguration>): string
    decreases |ss|
  {
    if |ss| == 0 then "" else Block(t, ss[0]) + Blocks(t, ss[1..])
  }

  /** The configuration text. */
  function Render(t: Template, w: WholeConfiguration, pidFile: string, sockFile: string): string {
    Header(t, sockFile, pidFile) + StatsSection(t, w.statsPort) + "\n\n" + Blocks(t, w.services) + "\n"
  }

  /** Names and addresses that cannot be confused with the template text
      around them: a backend name holds no space or line break, and no
      address or certificate path holds a line break. */
  predicate WellNamed(e: Endpoint) {
    ' ' !in e.name && '\n' !in e.name && '\n' !in e.ip
  }

  predicate WellFormedService(s: ServiceConfiguration) {
    && '\n' !in s.publish.ip
    && '\n' !in s.publish.ssl
    && forall i :: 0 <= i < |s.backends| ==> WellNamed(s.backends[i])
  }

  predicate WellFormedServices(ss: seq<ServiceConfiguration>) {
    forall i :: 0 <= i < |ss| ==> WellFormedService(ss[i])
  }

  /** The range over services emits one block per service, in order. */
  lemma {:induction false} BlocksAppend(t: Template, a: seq<ServiceConfiguration>, b: seq<ServiceConfiguration>)
    ensures Blocks(t, a + b) == Blocks(t, a) + Blocks(t, b)
    decreases |a|
  {
    if |a| == 0 {
      assert a + b == b;
    } else {
      assert (a + b)[1..] == a[1..] + b;
      BlocksAppend(t, a[1..], b);
      Assoc(Block(t, a[0]), Blocks(t, a[1..]), Blocks(t, b));
    }
  }

  /** The range over backends emits one server line per backend, in order. */
  lemma {:induction false} ServerLinesAppend(a: seq<Endpoint>, b: seq<Endpoint>)
    ensures ServerLines(a + b) == ServerLines(a) + ServerLines(b)
    decreases |a|
  {
    if |a| == 0 {
      assert a + b == b;
    } else {
      assert (a + b)[1..] == a[1..] + b;
      ServerLinesAppend(a[1..], b);
      Assoc(ServerLine(a[0]), ServerLines(a[1..]), ServerLines(b));
    }
  }

  // The one-line lemmas below (Assoc, Witness and the *Shape lemmas)
  // only regroup concatenations. Each is proved in a context of its
  // own: written as an assertion inside the lemma that uses it, the
  // same regrouping is searched against every definition in scope.

  lemma Assoc(a: string, b: string, c: string)
    ensures a + b + c == a + (b + c)
  {
  }

  lemma Witness(r: string, pre: string, x: string, post: string)
    requires r == pre + x + post
    ensures exists a, b :: r == a + x + b
  {
  }

  lemma ListedShape(h: string, a: string, x: string, c: string, t: string)
    ensures h + (a + (x + c)) + t == (h + a) + x + (c + t)
  {
  }

  lemma BlocksAround(t: Template, ss: seq<ServiceConfiguration>, i: int)
    requires 0 <= i < |ss|
    ensures Blocks(t, ss) == Blocks(t, ss[..i]) + (Block(t, ss[i]) + Blocks(t, ss[i + 1..]))
  {
    assert ss[..i] + ss[i..] == ss;
    BlocksAppend(t, ss[..i], ss[i..]);
    assert ss[i..][1..] == ss[i + 1..];
  }

  lemma ServerLinesAround(bs: seq<Endpoint>, j: int)
    requires 0 <= j < |bs|
    ensures ServerLines(bs) == ServerLines(bs[..j]) + (ServerLine(bs[j]) + ServerLines(bs[j + 1..]))
  {
    assert bs[..j] + bs[j..] == bs;
    ServerLinesAppend(bs[..j], bs[j..]);
    assert bs[j..][1..] == bs[j + 1..];
  }

  /** Every service has its block in the configuration. */
  lemma ServiceListed(t: Template, w: WholeConfiguration, pidFile: string, sockFile: string, i: int)
    requires 0 <= i < |w.services|
    ensures exists pre, post :: Render(t, w, pidFile, sockFile) == pre + Block(t, w.services[i]) + post
  {
    var ss := w.services;
    var h := Header(t, sockFile, pidFile) + StatsSection(t, w.statsPort) + "\n\n";
    var a, x, c := Blocks(t, ss[..i]), Block(t, ss[i]), Blocks(t, ss[i + 1..]);
    BlocksAround(t, ss, i);
    ListedShape(h, a, x, c, "\n");
    Witness(Render(t, w, pidFile, sockFile), h + a, x, c + "\n");
  }

  /** Every backend of a service has its own server line in the
      service's block. */
  lemma BackendListed(t: Template, s: ServiceConfiguration, j: int)
    requires 0 <= j < |s.backends|
    ensures exists pre, post :: Block(t, s) == pre + ServerLine(s.backends[j]) + post
  {
    var bs := s.backends;
    var f := FrontendSection(s.publish) + BackendHead(t, s.publish);
    var a, x, c := ServerLines(bs[..j]), ServerLine(bs[j]), ServerLines(bs[j + 1..]);
    ServerLinesAround(bs, j);
    ListedShape(f, a, x, c, "\n");
    Witness(Block(t, s), f + a, x, c + "\n");
  }

  lemma RenderShape(h: string, st: string, b: string)
    ensures h + st + "\n\n" + b + "\n" == h + (st + "\n\n" + (b + "\n"))
  {
  }

  lemma BlocksFirst(t: Template, ss: seq<ServiceConfiguration>, u: string)
    requires |u| > 0
    ensures (Blocks(t, ss) + u)[0] == if |ss| > 0 then 'f' else u[0]
  {
    if |ss| > 0 {
      var b := Block(t, ss[0]);
      Assoc(b, Blocks(t, ss[1..]), u);
      assert (b + (Blocks(t, ss[1..]) + u))[0] == b[0];
    }
  }

  lemma ServerLinesFirst(bs: seq<Endpoint>, u: string)
    requires |u| > 0
    ensures (ServerLines(bs) + u)[0] == if |bs| > 0 then 's' else u[0]
  {
    if |bs| > 0 {
      var l := ServerLine(bs[0]);
      Assoc(l, ServerLines(bs[1..]), u);
      assert (l + (ServerLines(bs[1..]) + u))[0] == l[0];
    }
  }

  lemma StatsOnShape(h: string, p: string, o: string, b: string)
    requires |h| > 2
    ensures (h + p + "\n" + o + "\n\n" + b)[2] == h[2]
  {
  }

  lemma StatsOffShape(b: string)
    requires |b| > 0
    ensures ("" + "\n\n" + b)[2] == b[0]
  {
  }

  /** The third character after the header tells whether the listener is
      there, whatever follows, as long as it does not start with `l`. */
  lemma StatsIndicator(t: Template, p: int, b: string)
    requires Usable(t) && |b| > 0 && b[0] != 'l'
    ensures var rest := StatsSection(t, p) + "\n\n" + b;
      |rest| > 2 && (rest[2] == 'l' <==> p > 0)
  {
    if p > 0 {
      StatsOnShape(t.statsHead, Itoa(p), t.statsOptions, b);
    } else {
      StatsOffShape(b);
    }
  }

  /** The statistics listener is in the configuration, right after the
      `defaults` section, exactly when the stats port is positive. */
  lemma StatsListed(t: Template, w: WholeConfiguration, pidFile: string, sockFile: string)
    requires Usable(t)
    ensures var text := Render(t, w, pidFile, sockFile);
      var h := |Header(t, sockFile, pidFile)|;
      |text| > h + 2 && (text[h + 2] == 'l' <==> w.statsPort > 0)
  {
    var h := Header(t, sockFile, pidFile);
    var b := Blocks(t, w.services) + "\n";
    var rest := StatsSection(t, w.statsPort) + "\n\n" + b;
    RenderShape(h, StatsSection(t, w.statsPort), Blocks(t, w.services));
    BlocksFirst(t, w.services, "\n");
    StatsIndicator(t, w.statsPort, b);
    assert (h + rest)[|h| + 2] == rest[2];
  }

  lemma ServerLineShape(name: string, ip: string, p: string, u: string)
    ensures "server " + name + " " + ip + ":" + p + " \n\t" + u
         == "server " + (name + [' '] + ((ip + [':'] + p + [' ']) + ['\n'] + ("\t" + u)))
  {
  }

  /** A server line followed by anything determines its endpoint. */
  lemma ServerLineDecode(e1: Endpoint, e2: Endpoint, u1: string, u2: string)
    requires WellNamed(e1) && WellNamed(e2)
    requires ServerLine(e1) + u1 == ServerLine(e2) + u2
    ensures e1 == e2 && u1 == u2
  {
    var p1, p2 := Itoa(e1.port), Itoa(e2.port);
    var r1, r2 := e1.ip + [':'] + p1 + [' '], e2.ip + [':'] + p2 + [' '];
    ItoaExcludes(e1.port, '\n');
    ItoaExcludes(e2.port, '\n');
    ItoaExcludes(e1.port, ':');
    ItoaExcludes(e2.port, ':');
    ServerLineShape(e1.name, e1.ip, p1, u1);
    ServerLineShape(e2.name, e2.ip, p2, u2);
    CancelPrefix("server ", e1.name + [' '] + (r1 + ['\n'] + ("\t" + u1)), e2.name + [' '] + (r2 + ['\n'] + ("\t" + u2)));
    SplitAtFirst(e1.name, r1 + ['\n'] + ("\t" + u1), e2.name, r2 + ['\n'] + ("\t" + u2), ' ');
    SplitAtFirst(r1, "\t" + u1, r2, "\t" + u2, '\n');
    CancelPrefix("\t", u1, u2);
    DropLast(e1.ip + [':'] + p1, e2.ip + [':'] + p2, ' ');
    SplitAtLast(e1.ip, p1, e2.ip, p2, ':');
    ItoaInjective(e1.port, e2.port);
  }

  lemma DropLast(a: string, b: string, c: char)
    requires a + [c] == b + [c]
    ensures a == b
  {
    assert a == (a + [c])[..|a|];
    assert b == (b + [c])[..|b|];
  }

  /** Server lines followed by the line break that closes the block
      determine the backends. */
  lemma {:induction false} ServerLinesDecode(bs1: seq<Endpoint>, bs2: seq<Endpoint>, u1: string, u2: string)
    requires forall i :: 0 <= i < |bs1| ==> WellNamed(bs1[i])
    requires forall i :: 0 <= i < |bs2| ==> WellNamed(bs2[i])
    requires ServerLines(bs1) + ("\n" + u1) == ServerLines(bs2) + ("\n" + u2)
    ensures bs1 == bs2 && u1 == u2
    decreases |bs1|
  {
    ServerLinesFirst(bs1, "\n" + u1);
    ServerLinesFirst(bs2, "\n" + u2);
    if |bs1| == 0 {
      assert ServerLines(bs1) + ("\n" + u1) == "\n" + u1;
      assert ServerLines(bs2) + ("\n" + u2) == "\n" + u2;
      CancelPrefix("\n", u1, u2);
    } else {
      var v1, v2 := ServerLines(bs1[1..]) + ("\n" + u1), ServerLines(bs2[1..]) + ("\n" + u2);
      Assoc(ServerLine(bs1[0]), ServerLines(bs1[1..]), "\n" + u1);
      Assoc(ServerLine(bs2[0]), ServerLines(bs2[1..]), "\n" + u2);
      ServerLineDecode(bs1[0], bs2[0], v1, v2);
      ServerLinesDecode(bs1[1..], bs2[1..], u1, u2);
      ConsTail(bs1);
      ConsTail(bs2);
    }
  }

  lemma SslOptionDecode(k1: GroupKey, k2: GroupKey)
    requires SslOption(k1) == SslOption(k2)
    ensures k1.ssl == k2.ssl
  {
    if k1.ssl != "" {
      CancelPrefix(" ssl crt ", k1.ssl, k2.ssl);
    }
  }

  lemma FrontendShape(ip: string, p: string, bind: string, ssl: string, y: string)
    ensures "frontend port_" + ip + "_" + p + "\n    bind " + bind + ":" + p + ssl + "\n" + y
         == "frontend port_" + (ip + ['_'] + p + ['\n'] + (("    bind " + bind + ":" + p) + (ssl + ['\n'] + y)))
  {
  }

  /** The frontend section followed by anything determines the key. */
  lemma FrontendDecode(k1: GroupKey, k2: GroupKey, y1: string, y2: string)
    requires '\n' !in k1.ip && '\n' !in k1.ssl && '\n' !in k2.ip && '\n' !in k2.ssl
    requires FrontendSection(k1) + y1 == FrontendSection(k2) + y2
    ensures k1 == k2 && y1 == y2
  {
    var p1, p2 := Itoa(k1.port), Itoa(k2.port);
    ItoaExcludes(k1.port, '\n');
    ItoaExcludes(k2.port, '\n');
    ItoaExcludes(k1.port, '_');
    ItoaExcludes(k2.port, '_');
    var b1, b2 := "    bind " + BindAddress(k1) + ":" + p1, "    bind " + BindAddress(k2) + ":" + p2;
    var x1, x2 := b1 + (SslOption(k1) + ['\n'] + y1), b2 + (SslOption(k2) + ['\n'] + y2);
    FrontendShape(k1.ip, p1, BindAddress(k1), SslOption(k1), y1);
    FrontendShape(k2.ip, p2, BindAddress(k2), SslOption(k2), y2);
    CancelPrefix("frontend port_", k1.ip + ['_'] + p1 + ['\n'] + x1, k2.ip + ['_'] + p2 + ['\n'] + x2);
    SplitAtFirst(k1.ip + ['_'] + p1, x1, k2.ip + ['_'] + p2, x2, '\n');
    SplitAtLast(k1.ip, p1, k2.ip, p2, '_');
    ItoaInjective(k1.port, k2.port);
    CancelPrefix(b1, SslOption(k1) + ['\n'] + y1, SslOption(k2) + ['\n'] + y2);
    SplitAtFirst(SslOption(k1), y1, SslOption(k2), y2, '\n');
    SslOptionDecode(k1, k2);
  }

  lemma BlockShape(f: string, h: string, l: string, u: string)
    ensures f + h + l + "\n" + u == f + (h + (l + ("\n" + u)))
  {
  }

  /** A block followed by anything determines its service. */
  lemma BlockDecode(t: Template, s1: ServiceConfiguration, s2: ServiceConfiguration, u1: string, u2: string)
    requires WellFormedService(s1) && WellFormedService(s2)
    requires Block(t, s1) + u1 == Block(t, s2) + u2
    ensures s1 == s2 && u1 == u2
  {
    var k1, k2 := s1.publish, s2.publish;
    var l1, l2 := ServerLines(s1.backends) + ("\n" + u1), ServerLines(s2.backends) + ("\n" + u2);
    BlockShape(FrontendSection(k1), BackendHead(t, k1), ServerLines(s1.backends), u1);
    BlockShape(FrontendSection(k2), BackendHead(t, k2), ServerLines(s2.backends), u2);
    FrontendDecode(k1, k2, BackendHead(t, k1) + l1, BackendHead(t, k2) + l2);
    CancelPrefix(BackendHead(t, k1), l1, l2);
    ServerLinesDecode(s1.backends, s2.backends, u1, u2);
  }

  lemma ConsTail<T>(s: seq<T>)
    requires |s| > 0
    ensures s == [s[0]] + s[1..]
  {
  }

  lemma WellFormedTail(ss: seq<ServiceConfiguration>)
    requires |ss| > 0 && WellFormedServices(ss)
    ensures WellFormedServices(ss[1..])
  {
    forall i | 0 <= i < |ss| - 1
      ensures WellFormedService(ss[1..][i])
    {
      assert ss[1..][i] == ss[i + 1];
    }
  }

  /** One more block in front of the rest. */
  lemma BlocksCons(t: Template, ss: seq<ServiceConfiguration>)
    requires |ss| > 0
    ensures Blocks(t, ss) + "\n" == Block(t, ss[0]) + (Blocks(t, ss[1..]) + "\n")
  {
    Assoc(Block(t, ss[0]), Blocks(t, ss[1..]), "\n");
  }

  /** The blocks and the final line break determine the services. */
  lemma {:induction false} BlocksDecode(t: Template, ss1: seq<ServiceConfiguration>, ss2: seq<ServiceConfiguration>)
    requires WellFormedServices(ss1) && WellFormedServices(ss2)
    requires Blocks(t, ss1) + "\n" == Blocks(t, ss2) + "\n"
    ensures ss1 == ss2
    decreases |ss1|
  {
    BlocksFirst(t, ss1, "\n");
    BlocksFirst(t, ss2, "\n");
    if |ss1| > 0 {
      BlocksCons(t, ss1);
      BlocksCons(t, ss2);
      BlockDecode(t, ss1[0], ss2[0], Blocks(t, ss1[1..]) + "\n", Blocks(t, ss2[1..]) + "\n");
      WellFormedTail(ss1);
      WellFormedTail(ss2);
      BlocksDecode(t, ss1[1..], ss2[1..]);
      ConsTail(ss1);
      ConsTail(ss2);
    }
  }

  lemma StatsShape(h: string, p: string, o: string, b: string)
    ensures h + p + "\n" + o + "\n\n" + b == h + (p + ['\n'] + (o + "\n\n" + b))
  {
  }

  /** The statistics section followed by text not starting with `l`
      determines whether the listener is on, its port, and the text. */
  lemma StatsDecode(t: Template, p1: int, p2: int, b1: string, b2: string)
    requires Usable(t)
    requires |b1| > 0 && b1[0] != 'l' && |b2| > 0 && b2[0] != 'l'
    requires StatsSection(t, p1) + "\n\n" + b1 == StatsSection(t, p2) + "\n\n" + b2
    ensures p1 > 0 <==> p2 > 0
    ensures p1 > 0 ==> p1 == p2
    ensures b1 == b2
  {
    StatsIndicator(t, p1, b1);
    StatsIndicator(t, p2, b2);
    if p1 > 0 {
      var q1, q2 := Itoa(p1), Itoa(p2);
      var o := t.statsOptions;
      ItoaExcludes(p1, '\n');
      ItoaExcludes(p2, '\n');
      StatsShape(t.statsHead, q1, o, b1);
      StatsShape(t.statsHead, q2, o, b2);
      CancelPrefix(t.statsHead, q1 + ['\n'] + (o + "\n\n" + b1), q2 + ['\n'] + (o + "\n\n" + b2));
      SplitAtFirst(q1, o + "\n\n" + b1, q2, o + "\n\n" + b2, '\n');
      ItoaInjective(p1, p2);
      CancelPrefix(o + "\n\n", b1, b2);
    } else {
      assert StatsSection(t, p1) + "\n\n" + b1 == "\n\n" + b1;
      assert StatsSection(t, p2) + "\n\n" + b2 == "\n\n" + b2;
      CancelPrefix("\n\n", b1, b2);
    }
  }

  /** Different well-formed configurations render differently: the text
      determines the services in order, whether the statistics listener
      is enabled, and its port when it is. */
  lemma RenderInjective(t: Template, w1: WholeConfiguration, w2: WholeConfiguration, pidFile: string, sockFile: string)
    requires Usable(t)
    requires WellFormedServices(w1.services) && WellFormedServices(w2.services)
    requires Render(t, w1, pidFile, sockFile) == Render(t, w2, pidFile, sockFile)
    ensures w1.services == w2.services
    ensures w1.statsPort > 0 <==> w2.statsPort > 0
    ensures w1.statsPort > 0 ==> w1.statsPort == w2.statsPort
  {
    var h := Header(t, sockFile, pidFile);
    var s1, s2 := StatsSection(t, w1.statsPort), StatsSection(t, w2.statsPort);
    var b1, b2 := Blocks(t, w1.services) + "\n", Blocks(t, w2.services) + "\n";
    RenderShape(h, s1, Blocks(t, w1.services));
    RenderShape(h, s2, Blocks(t, w2.services));
    CancelPrefix(h, s1 + "\n\n" + b1, s2 + "\n\n" + b2);
    BlocksFirst(t, w1.services, "\n");
    BlocksFirst(t, w2.services, "\n");
    StatsDecode(t, w1.statsPort, w2.statsPort, b1, b2);
    BlocksDecode(t, w1.services, w2.services);
  }
}
