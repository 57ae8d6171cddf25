/** How readServices depends on the container list Docker returns: not
    on its order (the endpoints under each key are a multiset of the
    containers), not on containers that contribute nothing, and — where
    `sort.Slice` has no ties to break — not at all beyond the multiset of
    containers. */
module Determinism {
  import opened Options
  import opened Decimal
  import opened Strings
  import opened Sorting
  import opened Model
  import opened Extract
  import opened Grouping

  /** Removing one occurrence of the same element from two equal multisets. */
  lemma MultisetCancel<T>(m: multiset<T>, n: multiset<T>, x: T)
    requires m + multiset{x} == n + multiset{x}
    ensures m == n
  {
    forall y
      ensures m[y] == n[y]
    {
      assert (m + multiset{x})[y] == m[y] + multiset{x}[y];
      assert (n + multiset{x})[y] == n[y] + multiset{x}[y];
    }
  }

  /** A sequence is the part before position `j`, the element there, and the rest. */
  lemma Split<T>(s: seq<T>, j: int)
    requires 0 <= j < |s|
    ensures s == s[..j] + [s[j]] + s[j + 1..]
    ensures multiset(s) == multiset(s[..j] + s[j + 1..]) + multiset{s[j]}
  {
    assert s == s[..j] + [s[j]] + s[j + 1..];
    assert multiset(s[..j] + s[j + 1..]) == multiset(s[..j]) + multiset(s[j + 1..]);
  }

  /** `f` applied to each element of `s`. */
  function MapSeq<A, B>(s: seq<A>, f: A -> B): (r: seq<B>)
    ensures |r| == |s|
    ensures forall i :: 0 <= i < |s| ==> r[i] == f(s[i])
  {
    seq(|s|, i requires 0 <= i < |s| => f(s[i]))
  }

  lemma MapAppend<A, B>(a: seq<A>, b: seq<A>, f: A -> B)
    ensures MapSeq(a + b, f) == MapSeq(a, f) + MapSeq(b, f)
  {
    assert forall i :: 0 <= i < |a| ==> (a + b)[i] == a[i];
    assert forall i :: |a| <= i < |a + b| ==> (a + b)[i] == b[i - |a|];
  }

  lemma MapRemove<A, B>(b: seq<A>, j: int, f: A -> B)
    requires 0 <= j < |b|
    ensures multiset(MapSeq(b, f)) == multiset(MapSeq(b[..j] + b[j + 1..], f)) + multiset{f(b[j])}
  {
    Split(b, j);
    MapAppend(b[..j] + [b[j]], b[j + 1..], f);
    MapAppend(b[..j], [b[j]], f);
    MapAppend(b[..j], b[j + 1..], f);
    assert MapSeq([b[j]], f) == [f(b[j])];
  }

  /** Mapping a permutation gives a permutation. */
  lemma {:induction false} MapPermutation<A, B>(a: seq<A>, b: seq<A>, f: A -> B)
    requires multiset(a) == multiset(b)
    ensures multiset(MapSeq(a, f)) == multiset(MapSeq(b, f))
    decreases |a|
  {
    if |a| == 0 {
      assert |b| == |multiset(b)| == 0;
    } else {
      var x := a[|a| - 1];
      var a' := a[..|a| - 1];
      assert a == a' + [x];
      assert x in multiset(b);
      var j :| 0 <= j < |b| && b[j] == x;
      Split(b, j);
      var b' := b[..j] + b[j + 1..];
      MultisetCancel(multiset(a'), multiset(b'), x);
      MapPermutation(a', b', f);
      MapAppend(a', [x], f);
      assert MapSeq([x], f) == [f(x)];
      MapRemove(b, j, f);
    }
  }

  lemma OutcomesAreMap(cs: seq<Container>, e: string -> bool)
    ensures Outcomes(cs, e) == MapSeq(cs, c => ProcessContainer(c, e))
  {
  }

  lemma OutcomesAppend(a: seq<Container>, b: seq<Container>, e: string -> bool)
    ensures Outcomes(a + b, e) == Outcomes(a, e) + Outcomes(b, e)
  {
    OutcomesAreMap(a + b, e);
    OutcomesAreMap(a, e);
    OutcomesAreMap(b, e);
    MapAppend(a, b, c => ProcessContainer(c, e));
  }

  /** Reordering the containers reorders their outcomes. */
  lemma OutcomesPermutation(a: seq<Container>, b: seq<Container>, e: string -> bool)
    requires multiset(a) == multiset(b)
    ensures multiset(Outcomes(a, e)) == multiset(Outcomes(b, e))
  {
    OutcomesAreMap(a, e);
    OutcomesAreMap(b, e);
    MapPermutation(a, b, c => ProcessContainer(c, e));
  }

  lemma {:induction false} TallyAppend(p: seq<Outcome>, q: seq<Outcome>, k: GroupKey)
    ensures Tally(p + q, k) == Tally(p, k) + Tally(q, k)
    decreases |q|
  {
    if |q| == 0 {
      assert p + q == p;
    } else {
      assert (p + q)[..|p + q| - 1] == p + q[..|q| - 1];
      assert (p + q)[|p + q| - 1] == q[|q| - 1];
      TallyAppend(p, q[..|q| - 1], k);
    }
  }

  lemma TallySingle(o: Outcome, k: GroupKey)
    ensures Tally([o], k) == Part(o, k)
  {
    assert [o][..0] == [];
  }

  /** The endpoints collected under a key do not depend on the order of
      the outcomes. */
  lemma {:induction false} TallyPermutation(a: seq<Outcome>, b: seq<Outcome>, k: GroupKey)
    requires multiset(a) == multiset(b)
    ensures Tally(a, k) == Tally(b, k)
    decreases |a|
  {
    if |a| == 0 {
      assert |b| == |multiset(b)| == 0;
    } else {
      var x := a[|a| - 1];
      var a' := a[..|a| - 1];
      assert a == a' + [x];
      assert x in multiset(b);
      var j :| 0 <= j < |b| && b[j] == x;
      Split(b, j);
      var b' := b[..j] + b[j + 1..];
      MultisetCancel(multiset(a'), multiset(b'), x);
      TallyPermutation(a', b', k);
      TallyRemove(b, j, k);
    }
  }

  /** Taking one outcome out of a run takes its part out of the tally. */
  lemma TallyRemove(b: seq<Outcome>, j: int, k: GroupKey)
    requires 0 <= j < |b|
    ensures Tally(b, k) == Tally(b[..j] + b[j + 1..], k) + Part(b[j], k)
  {
    Split(b, j);
    TallyAppend(b[..j] + [b[j]], b[j + 1..], k);
    TallyAppend(b[..j], [b[j]], k);
    TallyAppend(b[..j], b[j + 1..], k);
    TallySingle(b[j], k);
  }

  /** What the containers contribute under each key is independent of
      the order Docker lists them in. */
  lemma ContributionPermutation(a: seq<Container>, b: seq<Container>, e: string -> bool, k: GroupKey)
    requires multiset(a) == multiset(b)
    ensures Contribution(a, e, k) == Contribution(b, e, k)
  {
    OutcomesPermutation(a, b, e);
    TallyPermutation(Outcomes(a, e), Outcomes(b, e), k);
  }

  lemma AnyCrashedPermutation(a: seq<Outcome>, b: seq<Outcome>)
    requires multiset(a) == multiset(b)
    ensures AnyCrashed(a) ==> AnyCrashed(b)
  {
    if AnyCrashed(a) {
      var i :| 0 <= i < |a| && a[i].Crashed?;
      assert a[i] in multiset(b);
      var j :| 0 <= j < |b| && b[j] == a[i];
    }
  }

  /** The sort key of a service determines its address and port: the
      port's decimal text holds no space, so the last space of the key is
      the one after the address. */
  lemma ServiceOrderKeyInjective(s: ServiceConfiguration, t: ServiceConfiguration)
    ensures ServiceOrderKey(s) == ServiceOrderKey(t) <==>
      s.publish.ip == t.publish.ip && s.publish.port == t.publish.port
  {
    if ServiceOrderKey(s) == ServiceOrderKey(t) {
      ItoaExcludes(s.publish.port, ' ');
      ItoaExcludes(t.publish.port, ' ');
      SplitAtLast(s.publish.ip, Itoa(s.publish.port), t.publish.ip, Itoa(t.publish.port), ' ');
      ItoaInjective(s.publish.port, t.publish.port);
    }
  }

  ghost predicate NamesDistinct(bs: seq<Endpoint>) {
    forall a, b :: 0 <= a < b < |bs| ==> bs[a].name != bs[b].name
  }

  /** A service list on which neither sort in readServices meets a tie:
      no two services share an address and port, and no two backends of a
      service share a name. */
  ghost predicate TieFree(ss: seq<ServiceConfiguration>) {
    && (forall i, j :: 0 <= i < j < |ss| ==>
          ss[i].publish.ip != ss[j].publish.ip || ss[i].publish.port != ss[j].publish.port)
    && (forall i :: 0 <= i < |ss| ==> NamesDistinct(ss[i].backends))
  }

  lemma NamesDistinctKeyInjective(bs: seq<Endpoint>)
    requires NamesDistinct(bs)
    ensures KeyInjective(multiset(bs), NameOf)
  {
    forall x, y | x in multiset(bs) && y in multiset(bs) && NameOf(x) == NameOf(y)
      ensures x == y
    {
      var a :| 0 <= a < |bs| && bs[a] == x;
      var b :| 0 <= b < |bs| && bs[b] == y;
    }
  }

  lemma PublishesDistinct(ss: seq<ServiceConfiguration>)
    requires forall i, j :: 0 <= i < j < |ss| ==> ss[i].publish != ss[j].publish
    ensures Distinct(ss)
  {
  }

  /** Two services for the same key holding the same endpoints, both
      sorted by name, are equal when no two of the endpoints share a name. */
  lemma SameKeySameService(x: ServiceConfiguration, y: ServiceConfiguration)
    requires x.publish == y.publish && multiset(x.backends) == multiset(y.backends)
    requires SortedBy(x.backends, NameOf) && SortedBy(y.backends, NameOf)
    requires NamesDistinct(x.backends)
    ensures x == y
  {
    NamesDistinctKeyInjective(x.backends);
    SortedPermutationUnique(x.backends, y.backends, NameOf);
  }

  /** A service of a tie-free description of some outcomes also appears
      in any description of the same tallies. */
  lemma MatchingService(ss1: seq<ServiceConfiguration>, os1: seq<Outcome>,
                        ss2: seq<ServiceConfiguration>, os2: seq<Outcome>, i: int)
    requires Describes(ss1, os1) && Describes(ss2, os2)
    requires forall k :: Tally(os1, k) == Tally(os2, k)
    requires 0 <= i < |ss1| && NamesDistinct(ss1[i].backends)
    ensures exists j :: 0 <= j < |ss2| && ss2[j] == ss1[i]
  {
    var k := ss1[i].publish;
    assert |multiset(ss1[i].backends)| == |ss1[i].backends|;
    assert |Tally(os2, k)| > 0;
    var j :| 0 <= j < |ss2| && ss2[j].publish == k;
    SameKeySameService(ss1[i], ss2[j]);
  }

  /** And conversely. */
  lemma ReverseMatchingService(ss1: seq<ServiceConfiguration>, os1: seq<Outcome>,
                               ss2: seq<ServiceConfiguration>, os2: seq<Outcome>, j: int)
    requires Describes(ss1, os1) && Describes(ss2, os2)
    requires forall k :: Tally(os1, k) == Tally(os2, k)
    requires TieFree(ss1)
    requires 0 <= j < |ss2|
    ensures exists i :: 0 <= i < |ss1| && ss1[i] == ss2[j]
  {
    var k := ss2[j].publish;
    assert |multiset(ss2[j].backends)| == |ss2[j].backends|;
    assert |Tally(os1, k)| > 0;
    var i :| 0 <= i < |ss1| && ss1[i].publish == k;
    SameKeySameService(ss1[i], ss2[j]);
  }

  lemma SameServices(ss1: seq<ServiceConfiguration>, os1: seq<Outcome>,
                     ss2: seq<ServiceConfiguration>, os2: seq<Outcome>)
    requires Describes(ss1, os1) && Describes(ss2, os2)
    requires forall k :: Tally(os1, k) == Tally(os2, k)
    requires TieFree(ss1)
    ensures multiset(ss1) == multiset(ss2)
  {
    forall x
      ensures x in ss1 <==> x in ss2
    {
      if x in ss1 {
        var i :| 0 <= i < |ss1| && ss1[i] == x;
        MatchingService(ss1, os1, ss2, os2, i);
      }
      if x in ss2 {
        var j :| 0 <= j < |ss2| && ss2[j] == x;
        ReverseMatchingService(ss1, os1, ss2, os2, j);
      }
    }
    PublishesDistinct(ss1);
    PublishesDistinct(ss2);
    DistinctSameElements(ss1, ss2);
  }

  lemma TieFreeKeyInjective(ss: seq<ServiceConfiguration>)
    requires TieFree(ss)
    ensures KeyInjective(multiset(ss), ServiceOrderKey)
  {
    forall x, y | x in multiset(ss) && y in multiset(ss) && ServiceOrderKey(x) == ServiceOrderKey(y)
      ensures x == y
    {
      var a :| 0 <= a < |ss| && ss[a] == x;
      var b :| 0 <= b < |ss| && ss[b] == y;
      ServiceOrderKeyInjective(x, y);
      assert a == b || a < b || b < a;
    }
  }

  /** Two descriptions of the same tallies coincide when the first is
      tie-free. */
  lemma DescribesUnique(ss1: seq<ServiceConfiguration>, os1: seq<Outcome>,
                        ss2: seq<ServiceConfiguration>, os2: seq<Outcome>)
    requires Describes(ss1, os1) && Describes(ss2, os2)
    requires forall k :: Tally(os1, k) == Tally(os2, k)
    requires TieFree(ss1)
    ensures ss1 == ss2
  {
    SameServices(ss1, os1, ss2, os2);
    TieFreeKeyInjective(ss1);
    SortedPermutationUnique(ss1, ss2, ServiceOrderKey);
  }

  /** readServices does not care in which order Docker lists the
      containers: whether it crashes does not depend on the order, and
      when the result has no ties for `sort.Slice` to break, neither does
      the result. */
  lemma ReadServicesPermutation(a: seq<Container>, b: seq<Container>, e: string -> bool)
    requires multiset(a) == multiset(b)
    ensures ReadServices(a, e).None? <==> ReadServices(b, e).None?
    ensures ReadServices(a, e).Some? && TieFree(ReadServices(a, e).value) ==> ReadServices(b, e) == ReadServices(a, e)
  {
    var oa, ob := Outcomes(a, e), Outcomes(b, e);
    OutcomesPermutation(a, b, e);
    AnyCrashedPermutation(oa, ob);
    AnyCrashedPermutation(ob, oa);
    assert ServicesOf(oa) == ReadServices(a, e) && ServicesOf(ob) == ReadServices(b, e);
    if ServicesOf(oa).Some? && ServicesOf(ob).Some? {
      forall k
        ensures Tally(oa, k) == Tally(ob, k)
      {
        TallyPermutation(oa, ob, k);
      }
      if TieFree(ServicesOf(oa).value) {
        DescribesUnique(ServicesOf(oa).value, oa, ServicesOf(ob).value, ob);
      }
    }
  }

  /** An outcome that adds nothing to the map: a skipped container, or
      one with no networks. */
  predicate Inert(o: Outcome) {
    o.Skipped? || (o.Extracted? && |o.endpoints| == 0)
  }

  lemma {:induction false} GroupOutcomesInert(p: seq<Outcome>, o: Outcome, q: seq<Outcome>)
    requires Inert(o)
    ensures GroupOutcomes(p + [o] + q) == GroupOutcomes(p + q)
    decreases |q|
  {
    if |q| == 0 {
      assert p + [o] + q == p + [o];
      assert p + q == p;
      GroupInertLast(p, o);
    } else {
      var q' := q[..|q| - 1];
      GroupOutcomesInert(p, o, q');
      assert (p + [o] + q)[..|p + [o] + q| - 1] == p + [o] + q';
      assert (p + q)[..|p + q| - 1] == p + q';
      assert (p + [o] + q)[|p + [o] + q| - 1] == (p + q)[|p + q| - 1];
      GroupSameLast(p + [o] + q, p + q);
    }
  }

  /** An inert outcome at the end of the run leaves the map as it was. */
  lemma GroupInertLast(p: seq<Outcome>, o: Outcome)
    requires Inert(o)
    ensures GroupOutcomes(p + [o]) == GroupOutcomes(p)
  {
    assert (p + [o])[..|p|] == p;
  }

  /** Runs that group to the same map before their last outcome, and end
      in the same outcome, group to the same map. */
  lemma GroupSameLast(a: seq<Outcome>, b: seq<Outcome>)
    requires |a| > 0 && |b| > 0 && a[|a| - 1] == b[|b| - 1]
    requires GroupOutcomes(a[..|a| - 1]) == GroupOutcomes(b[..|b| - 1])
    ensures GroupOutcomes(a) == GroupOutcomes(b)
  {
  }

  lemma ReadsOutcomes(cs: seq<Container>, e: string -> bool)
    ensures ReadServices(cs, e) == ServicesOf(Outcomes(cs, e))
  {
  }

  /** Outcomes that are all inert collect nothing under any key. */
  lemma {:induction false} InertTallyEmpty(os: seq<Outcome>, k: GroupKey)
    requires forall i :: 0 <= i < |os| ==> Inert(os[i])
    ensures Tally(os, k) == multiset{}
    decreases |os|
  {
    if |os| > 0 {
      InertTallyEmpty(os[..|os| - 1], k);
    }
  }

  /** A run of inert outcomes groups into no services. */
  lemma InertRunDescribesNothing(os: seq<Outcome>)
    requires forall i :: 0 <= i < |os| ==> Inert(os[i])
    ensures ServicesOf(os) == Some([])
  {
    assert !AnyCrashed(os);
    var ss := ServicesOf(os).value;
    if |ss| > 0 {
      InertTallyEmpty(os, ss[0].publish);
    }
  }

  /** An outcome that is not a crash can be taken out of a run without
      changing whether the run crashes. */
  lemma AnyCrashedWithout(p: seq<Outcome>, o: Outcome, q: seq<Outcome>)
    requires !o.Crashed?
    ensures AnyCrashed(p + [o] + q) <==> AnyCrashed(p + q)
  {
    if AnyCrashed(p + [o] + q) {
      var i :| 0 <= i < |p + [o] + q| && (p + [o] + q)[i].Crashed?;
      if i < |p| {
        assert (p + q)[i] == (p + [o] + q)[i];
      } else {
        assert (p + q)[i - 1] == (p + [o] + q)[i];
      }
    }
    if AnyCrashed(p + q) {
      var i :| 0 <= i < |p + q| && (p + q)[i].Crashed?;
      if i < |p| {
        assert (p + [o] + q)[i] == (p + q)[i];
      } else {
        assert (p + [o] + q)[i + 1] == (p + q)[i];
      }
    }
  }

  /** A container that is skipped, or that is on no network, contributes
      nothing under any key. Removing it therefore changes neither whether
      readServices crashes nor, when the result leaves the sorts no ties
      to break, the result itself. With ties, Go's map and network
      iteration may order tied services or backends differently on every
      call, with or without the container. */
  lemma InertContainerChangesNothing(a: seq<Container>, c: Container, b: seq<Container>, e: string -> bool)
    requires Inert(ProcessContainer(c, e))
    ensures ReadServices(a + [c] + b, e).None? <==> ReadServices(a + b, e).None?
    ensures ReadServices(a + b, e).Some? && TieFree(ReadServices(a + b, e).value) ==>
      ReadServices(a + [c] + b, e) == ReadServices(a + b, e)
  {
    var o := ProcessContainer(c, e);
    OutcomesAppend(a + [c], b, e);
    OutcomesAppend(a, [c], e);
    OutcomesAppend(a, b, e);
    assert Outcomes([c], e) == [o];
    ReadsOutcomes(a + [c] + b, e);
    ReadsOutcomes(a + b, e);
    ServicesOfInert(Outcomes(a, e), o, Outcomes(b, e));
  }

  /** The same over outcomes. */
  lemma ServicesOfInert(p: seq<Outcome>, o: Outcome, q: seq<Outcome>)
    requires Inert(o)
    ensures ServicesOf(p + [o] + q).None? <==> ServicesOf(p + q).None?
    ensures ServicesOf(p + q).Some? && TieFree(ServicesOf(p + q).value) ==>
      ServicesOf(p + [o] + q) == ServicesOf(p + q)
  {
    AnyCrashedWithout(p, o, q);
    if ServicesOf(p + q).Some? && TieFree(ServicesOf(p + q).value) {
      forall k
        ensures Tally(p + q, k) == Tally(p + [o] + q, k)
      {
        InertTallyUnchanged(p, o, q, k);
      }
      DescribesUnique(ServicesOf(p + q).value, p + q, ServicesOf(p + [o] + q).value, p + [o] + q);
    }
  }

  lemma InertTallyUnchanged(p: seq<Outcome>, o: Outcome, q: seq<Outcome>, k: GroupKey)
    requires Inert(o)
    ensures Tally(p + [o] + q, k) == Tally(p + q, k)
  {
    TallyAppend(p + [o], q, k);
    TallyAppend(p, [o], k);
    TallyAppend(p, q, k);
    TallySingle(o, k);
  }

  /** The same Docker container as another poll may present it: the same
      names and labels, and the same networks, possibly enumerated in
      another order (processContainer ranges over the `Networks` map). */
  ghost predicate SameContainer(c1: Container, c2: Container) {
    c1.names == c2.names && c1.labels == c2.labels && multiset(c1.networks) == multiset(c2.networks)
  }

  /** Two polls of the same containers: the second lists, position by
      position, the same containers as some reordering of the first. */
  ghost predicate SameInventory(cs1: seq<Container>, cs2: seq<Container>) {
    exists m: seq<Container> :: multiset(m) == multiset(cs1) && |m| == |cs2|
      && forall i :: 0 <= i < |cs2| ==> SameContainer(m[i], cs2[i])
  }

  /** A reordered list is the same inventory. */
  lemma PermutationSameInventory(cs1: seq<Container>, cs2: seq<Container>)
    requires multiset(cs1) == multiset(cs2)
    ensures SameInventory(cs1, cs2)
  {
    assert forall i :: 0 <= i < |cs2| ==> SameContainer(cs2[i], cs2[i]);
  }

  lemma SameContainerCrash(c1: Container, c2: Container, e: string -> bool)
    requires SameContainer(c1, c2)
    ensures ProcessContainer(c1, e).Crashed? <==> ProcessContainer(c2, e).Crashed?
  {
    assert |multiset(c1.networks)| == |multiset(c2.networks)|;
    assert Label(c1, PublishLabel) == Label(c2, PublishLabel);
    assert Label(c1, TargetLabel) == Label(c2, TargetLabel);
    assert Label(c1, SslLabel) == Label(c2, SslLabel);
  }

  /** The same container contributes the same endpoints under every key,
      whatever order its networks come in. */
  lemma SameContainerPart(c1: Container, c2: Container, e: string -> bool, k: GroupKey)
    requires SameContainer(c1, c2)
    ensures Part(ProcessContainer(c1, e), k) == Part(ProcessContainer(c2, e), k)
  {
    var o1, o2 := ProcessContainer(c1, e), ProcessContainer(c2, e);
    assert |multiset(c1.networks)| == |multiset(c2.networks)|;
    assert Label(c1, PublishLabel) == Label(c2, PublishLabel);
    assert Label(c1, TargetLabel) == Label(c2, TargetLabel);
    assert Label(c1, SslLabel) == Label(c2, SslLabel);
    assert Label(c1, DstAddrLabel) == Label(c2, DstAddrLabel);
    if o1.Extracted? && |c1.networks| > 0 {
      var name, port := BackendName(c1), Atoi(Label(c1, TargetLabel)).value;
      var f := (n: string) => Endpoint(name, n, port);
      assert o1.endpoints == MapSeq(c1.networks, f);
      assert o2.endpoints == MapSeq(c2.networks, f);
      MapPermutation(c1.networks, c2.networks, f);
    }
  }

  /** Runs whose outcomes contribute alike, position by position, tally alike. */
  lemma {:induction false} TallyPointwise(os1: seq<Outcome>, os2: seq<Outcome>, k: GroupKey)
    requires |os1| == |os2|
    requires forall i :: 0 <= i < |os1| ==> Part(os1[i], k) == Part(os2[i], k)
    ensures Tally(os1, k) == Tally(os2, k)
    decreases |os1|
  {
    if |os1| > 0 {
      TallyPointwise(os1[..|os1| - 1], os2[..|os2| - 1], k);
    }
  }

  /** The same containers in the same positions, each with its networks
      in any order, read the same when the result has no ties. */
  lemma ReadServicesSameContainers(a: seq<Container>, b: seq<Container>, e: string -> bool)
    requires |a| == |b| && forall i :: 0 <= i < |a| ==> SameContainer(a[i], b[i])
    ensures ReadServices(a, e).None? <==> ReadServices(b, e).None?
    ensures ReadServices(a, e).Some? && TieFree(ReadServices(a, e).value) ==> ReadServices(b, e) == ReadServices(a, e)
  {
    var oa, ob := Outcomes(a, e), Outcomes(b, e);
    forall i | 0 <= i < |a|
      ensures oa[i].Crashed? <==> ob[i].Crashed?
    {
      SameContainerCrash(a[i], b[i], e);
    }
    ReadsOutcomes(a, e);
    ReadsOutcomes(b, e);
    if ServicesOf(oa).Some? && TieFree(ServicesOf(oa).value) {
      forall k
        ensures Tally(oa, k) == Tally(ob, k)
      {
        forall i | 0 <= i < |a|
          ensures Part(oa[i], k) == Part(ob[i], k)
        {
          SameContainerPart(a[i], b[i], e, k);
        }
        TallyPointwise(oa, ob, k);
      }
      DescribesUnique(ServicesOf(oa).value, oa, ServicesOf(ob).value, ob);
    }
  }

  /** Polling the same containers again, listed in any order and with
      each container's networks enumerated in any order, crashes exactly
      when the first poll does, and reads the same services when the
      first result leaves the sorts no ties. */
  lemma ReadServicesSameInventory(cs1: seq<Container>, cs2: seq<Container>, e: string -> bool)
    requires SameInventory(cs1, cs2)
    ensures ReadServices(cs1, e).None? <==> ReadServices(cs2, e).None?
    ensures ReadServices(cs1, e).Some? && TieFree(ReadServices(cs1, e).value) ==> ReadServices(cs2, e) == ReadServices(cs1, e)
  {
    var m: seq<Container> :| multiset(m) == multiset(cs1) && |m| == |cs2|
      && forall i :: 0 <= i < |cs2| ==> SameContainer(m[i], cs2[i]);
    ReadServicesPermutation(cs1, m, e);
    ReadServicesSameContainers(m, cs2, e);
  }
}
