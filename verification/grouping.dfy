/** `readServices` (main.go): every container is run through
    `processContainer` into a map from group key to endpoints, each key's
    endpoints are sorted by name, and the resulting services are sorted
    by the string `IP + " " + strconv.Itoa(Port)`.

    Go iterates the map in an unspecified order before the final sort;
    the model iterates it in first-insertion order (`Groups.keys`). That
    order is only visible among services whose IP and port coincide, and
    `sort.Slice` leaves those in an unspecified order anyway; likewise the
    order of a container's networks shows only among backends that share
    a name. Go may pick other orders on every call, so properties another
    run must share are stated through `Describes`. */
module Grouping {
  import opened Options
  import opened Decimal
  import opened Strings
  import opened Sorting
  import opened Model
  import opened Extract

  /** The `group` map of readServices, with its keys in insertion order. */
  datatype Groups = Groups(keys: seq<GroupKey>, members: map<GroupKey, seq<Endpoint>>)

  ghost predicate Valid(g: Groups) {
    && Distinct(g.keys)
    && (forall k :: k in g.members <==> k in g.keys)
    && (forall k :: k in g.members ==> |g.members[k]| > 0)
  }

  const NoGroups := Groups([], map[])

  /** processContainer applied to each container in list order. */
  function Outcomes(cs: seq<Container>, sslExists: string -> bool): (os: seq<Outcome>)
    ensures |os| == |cs|
    ensures forall i :: 0 <= i < |cs| ==> os[i] == ProcessContainer(cs[i], sslExists)
  {
    seq(|cs|, i requires 0 <= i < |cs| => ProcessContainer(cs[i], sslExists))
  }

  /** Endpoints an outcome adds under key `k`. */
  function Part(o: Outcome, k: GroupKey): multiset<Endpoint> {
    if o.Extracted? && o.key == k then multiset(o.endpoints) else multiset{}
  }

  /** Everything a run of outcomes contributes under key `k`. */
  function Tally(os: seq<Outcome>, k: GroupKey): multiset<Endpoint>
    decreases |os|
  {
    if |os| == 0 then multiset{} else Tally(os[..|os| - 1], k) + Part(os[|os| - 1], k)
  }

  /** Everything the containers contribute under key `k`; it does not
      depend on the order of the list (Determinism.ContributionPermutation). */
  function Contribution(cs: seq<Container>, sslExists: string -> bool, k: GroupKey): multiset<Endpoint> {
    Tally(Outcomes(cs, sslExists), k)
  }

  ghost predicate AnyCrashed(os: seq<Outcome>) {
    exists i :: 0 <= i < |os| && os[i].Crashed?
  }

  /** `group[key] = append(group[key], e)` for each endpoint `e` in turn. */
  function AddEndpoints(g: Groups, key: GroupKey, eps: seq<Endpoint>): (r: Groups)
    requires Valid(g)
    ensures Valid(r)
    ensures forall k :: k in r.members <==> k in g.members || (k == key && |eps| > 0)
    ensures key in r.members ==> r.members[key] == (if key in g.members then g.members[key] else []) + eps
    ensures forall k :: k in g.members && k != key ==> r.members[k] == g.members[k]
  {
    if |eps| == 0 then g
    else if key in g.members then Groups(g.keys, g.members[key := g.members[key] + eps])
    else Groups(g.keys + [key], g.members[key := eps])
  }

  /** One step of the loop over containers; `None` is the unrecovered
      panic of an unreadable name. */
  function Collect(g: Groups, o: Outcome): Option<Groups>
    requires Valid(g)
  {
    match o
    case Crashed => None
    case Skipped(_) => Some(g)
    case Extracted(key, eps) => Some(AddEndpoints(g, key, eps))
  }

  /** `g` holds exactly what the outcomes `os` contribute. */
  ghost predicate Tallies(g: Groups, os: seq<Outcome>) {
    && Valid(g)
    && (forall k :: k in g.members <==> |Tally(os, k)| > 0)
    && (forall k :: k in g.members ==> multiset(g.members[k]) == Tally(os, k))
  }

  lemma AnyCrashedSnoc(os: seq<Outcome>)
    requires |os| > 0
    ensures AnyCrashed(os) <==> AnyCrashed(os[..|os| - 1]) || os[|os| - 1].Crashed?
  {
    var prefix := os[..|os| - 1];
    if AnyCrashed(prefix) {
      var i :| 0 <= i < |prefix| && prefix[i].Crashed?;
      assert os[i] == prefix[i];
    }
  }

  /** Appending endpoints under `key` adds exactly them to that key's count. */
  lemma AddEndpointsCounts(g: Groups, key: GroupKey, eps: seq<Endpoint>, k: GroupKey)
    requires Valid(g)
    ensures var g' := AddEndpoints(g, key, eps);
      (if k in g'.members then multiset(g'.members[k]) else multiset{})
      == (if k in g.members then multiset(g.members[k]) else multiset{}) + (if k == key then multiset(eps) else multiset{})
  {
    var g' := AddEndpoints(g, key, eps);
    if k == key && k in g.members && |eps| > 0 {
      assert g'.members[k] == g.members[k] + eps;
    }
  }

  /** The count under every key after one more outcome. */
  lemma CollectCounts(g: Groups, os: seq<Outcome>, k: GroupKey)
    requires |os| > 0 && Valid(g)
    requires Collect(g, os[|os| - 1]).Some?
    requires (if k in g.members then multiset(g.members[k]) else multiset{}) == Tally(os[..|os| - 1], k)
    ensures var g' := Collect(g, os[|os| - 1]).value;
      (if k in g'.members then multiset(g'.members[k]) else multiset{}) == Tally(os, k)
  {
    var o := os[|os| - 1];
    if o.Extracted? {
      AddEndpointsCounts(g, o.key, o.endpoints, k);
    }
  }

  /** Counts that agree with the tallies make `Tallies`. */
  lemma TalliesFromCounts(g: Groups, os: seq<Outcome>)
    requires Valid(g)
    requires forall k :: (if k in g.members then multiset(g.members[k]) else multiset{}) == Tally(os, k)
    ensures Tallies(g, os)
  {
    forall k | k in g.members
      ensures |Tally(os, k)| > 0
    {
      assert |multiset(g.members[k])| == |g.members[k]|;
    }
  }

  /** One more outcome: `Tallies` carries over from the prefix. */
  lemma CollectStep(g: Groups, os: seq<Outcome>)
    requires |os| > 0 && Tallies(g, os[..|os| - 1])
    requires Collect(g, os[|os| - 1]).Some?
    ensures Tallies(Collect(g, os[|os| - 1]).value, os)
  {
    var g' := Collect(g, os[|os| - 1]).value;
    forall k
      ensures (if k in g'.members then multiset(g'.members[k]) else multiset{}) == Tally(os, k)
    {
      CollectCounts(g, os, k);
    }
    TalliesFromCounts(g', os);
  }

  /** The loop `for _, val := range containers { processContainer(val, group) }`,
      on the containers' outcomes. */
  function GroupOutcomes(os: seq<Outcome>): (r: Option<Groups>)
    ensures r.None? <==> AnyCrashed(os)
    ensures r.Some? ==> Tallies(r.value, os)
    decreases |os|
  {
    if |os| == 0 then
      Some(NoGroups)
    else
      AnyCrashedSnoc(os);
      match GroupOutcomes(os[..|os| - 1])
      case None => None
      case Some(g) =>
        if os[|os| - 1].Crashed? then None
        else
          CollectStep(g, os);
          Collect(g, os[|os| - 1])
  }

  /** The order `sort.Slice` puts services in: IP, a space, and the port
      as decimal text, compared as strings (so port 10000 sorts before
      port 80 on the same address). */
  function ServiceOrderKey(s: ServiceConfiguration): string {
    s.publish.ip + " " + Itoa(s.publish.port)
  }

  /** The services in map order, each with its backends sorted by name. */
  function BuildServices(g: Groups): (ss: seq<ServiceConfiguration>)
    requires Valid(g)
    ensures |ss| == |g.keys|
    ensures forall i :: 0 <= i < |ss| ==>
      && ss[i].publish == g.keys[i]
      && multiset(ss[i].backends) == multiset(g.members[g.keys[i]])
      && SortedBy(ss[i].backends, NameOf)
  {
    seq(|g.keys|, i requires 0 <= i < |g.keys| =>
      ServiceConfiguration(g.keys[i], SortBy(g.members[g.keys[i]], NameOf)))
  }

  /** What readServices promises about its result, stated against the
      outcomes of the containers alone. */
  ghost predicate Describes(ss: seq<ServiceConfiguration>, os: seq<Outcome>) {
    // each service carries every endpoint of its key, sorted by name, and at least one
    && (forall i :: 0 <= i < |ss| ==>
          && |ss[i].backends| > 0
          && multiset(ss[i].backends) == Tally(os, ss[i].publish)
          && SortedBy(ss[i].backends, NameOf))
    // every key that received an endpoint has a service
    && (forall k :: |Tally(os, k)| > 0 ==> exists i :: 0 <= i < |ss| && ss[i].publish == k)
    // and only one
    && (forall i, j :: 0 <= i < j < |ss| ==> ss[i].publish != ss[j].publish)
    && SortedBy(ss, ServiceOrderKey)
  }

  /** Every service BuildServices produces is one of g's keys with all of
      its endpoints, sorted by name. */
  lemma BuiltService(g: Groups, x: ServiceConfiguration)
    requires Valid(g) && x in BuildServices(g)
    ensures x.publish in g.members
    ensures multiset(x.backends) == multiset(g.members[x.publish])
    ensures SortedBy(x.backends, NameOf)
  {
    var list := BuildServices(g);
    var j :| 0 <= j < |list| && list[j] == x;
  }

  lemma SortedServicesBackends(g: Groups, os: seq<Outcome>, ss: seq<ServiceConfiguration>)
    requires Tallies(g, os)
    requires multiset(ss) == multiset(BuildServices(g))
    ensures forall i :: 0 <= i < |ss| ==>
      && |ss[i].backends| > 0
      && multiset(ss[i].backends) == Tally(os, ss[i].publish)
      && SortedBy(ss[i].backends, NameOf)
  {
    forall i | 0 <= i < |ss|
      ensures |ss[i].backends| > 0
      ensures multiset(ss[i].backends) == Tally(os, ss[i].publish)
      ensures SortedBy(ss[i].backends, NameOf)
    {
      assert ss[i] in multiset(BuildServices(g));
      BuiltService(g, ss[i]);
      assert |multiset(ss[i].backends)| == |g.members[ss[i].publish]|;
    }
  }

  lemma SortedServicesCoverKeys(g: Groups, ss: seq<ServiceConfiguration>)
    requires Valid(g)
    requires multiset(ss) == multiset(BuildServices(g))
    ensures forall k :: k in g.members ==> exists i :: 0 <= i < |ss| && ss[i].publish == k
  {
    var list := BuildServices(g);
    forall k | k in g.members
      ensures exists i :: 0 <= i < |ss| && ss[i].publish == k
    {
      var j :| 0 <= j < |g.keys| && g.keys[j] == k;
      assert list[j] in multiset(ss);
      var i :| 0 <= i < |ss| && ss[i] == list[j];
    }
  }

  /** Different positions of BuildServices carry different keys. */
  lemma BuildServicesKeysDiffer(g: Groups, a: int, b: int)
    requires Valid(g) && 0 <= a < |g.keys| && 0 <= b < |g.keys| && a != b
    ensures BuildServices(g)[a].publish != BuildServices(g)[b].publish
  {
    if a < b {
      assert g.keys[a] != g.keys[b];
    } else {
      assert g.keys[b] != g.keys[a];
    }
  }

  lemma BuildServicesDistinct(g: Groups)
    requires Valid(g)
    ensures Distinct(BuildServices(g))
  {
    var list := BuildServices(g);
    forall i, j | 0 <= i < j < |list|
      ensures list[i] != list[j]
    {
      BuildServicesKeysDiffer(g, i, j);
    }
  }

  lemma PermutedServicesDiffer(g: Groups, ss: seq<ServiceConfiguration>, i: int, j: int)
    requires Valid(g) && Distinct(ss)
    requires multiset(ss) == multiset(BuildServices(g))
    requires 0 <= i < j < |ss|
    ensures ss[i].publish != ss[j].publish
  {
    var list := BuildServices(g);
    assert ss[i] in multiset(list) && ss[j] in multiset(list);
    var a :| 0 <= a < |list| && list[a] == ss[i];
    var b :| 0 <= b < |list| && list[b] == ss[j];
    BuildServicesKeysDiffer(g, a, b);
  }

  lemma SortedServicesDistinct(g: Groups, ss: seq<ServiceConfiguration>)
    requires Valid(g)
    requires multiset(ss) == multiset(BuildServices(g))
    ensures forall i, j :: 0 <= i < j < |ss| ==> ss[i].publish != ss[j].publish
  {
    BuildServicesDistinct(g);
    PermutationKeepsDistinct(BuildServices(g), ss);
    forall i, j | 0 <= i < j < |ss|
      ensures ss[i].publish != ss[j].publish
    {
      PermutedServicesDiffer(g, ss, i, j);
    }
  }

  /** The services readServices builds from the outcomes; `None` is the
      panic that ends the controller. */
  function ServicesOf(os: seq<Outcome>): (r: Option<seq<ServiceConfiguration>>)
    ensures r.None? <==> AnyCrashed(os)
    ensures r.Some? ==> Describes(r.value, os)
  {
    match GroupOutcomes(os)
    case None => None
    case Some(g) =>
      var ss := SortBy(BuildServices(g), ServiceOrderKey);
      SortedServicesBackends(g, os, ss);
      SortedServicesCoverKeys(g, ss);
      SortedServicesDistinct(g, ss);
      Some(ss)
  }

  /** readServices on a container list. */
  function ReadServices(cs: seq<Container>, sslExists: string -> bool): (r: Option<seq<ServiceConfiguration>>)
    ensures r.None? <==> exists i :: 0 <= i < |cs| && ProcessContainer(cs[i], sslExists).Crashed?
    ensures r.Some? ==> Describes(r.value, Outcomes(cs, sslExists))
  {
    var os := Outcomes(cs, sslExists);
    assert AnyCrashed(os) ==> exists i :: 0 <= i < |cs| && ProcessContainer(cs[i], sslExists).Crashed?;
    ServicesOf(os)
  }
}
