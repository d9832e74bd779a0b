/** Kubernetes backend discovery without a drain manager: endpoint slices to the active backend set. */
module KubernetesDiscovery {
  import opened Basics

  datatype EpState = Active | Terminating

  datatype Port = Port(name: Option<string>, port: Option<int>)

  datatype Endpoint = Endpoint(addresses: seq<string>, ready: Option<bool>, serving: Option<bool>,
    terminating: Option<bool>)

  datatype Slice = Slice(ports: seq<Port>, endpoints: seq<Endpoint>)

  /** The configured port name ("" for the first port) and how an address and a port become a URL. */
  datatype Config = Config(portName: string, url: (string, int) -> string)

  predicate IsTrue(b: Option<bool>) {
    b.Some? && b.value
  }

  /** What the conditions of an endpoint say about it; starting and dead endpoints are ignored. */
  function Classify(ep: Endpoint): Option<EpState> {
    if IsTrue(ep.ready) && !IsTrue(ep.terminating) then Some(Active)
    else if IsTrue(ep.terminating) && IsTrue(ep.serving) then Some(Terminating)
    else None
  }

  predicate Matches(c: Config, p: Port) {
    p.name == Some(c.portName) && p.port.Some?
  }

  /** resolvePort: the first port, or the first one with the configured name that has a number; 0 if there is none. */
  method ResolvePort(c: Config, ports: seq<Port>) returns (port: int)
    ensures port == PortOf(c, ports)
  {
    if |ports| == 0 {
      return 0;
    }
    if c.portName == "" {
      if ports[0].port.Some? {
        return ports[0].port.value;
      }
      return 0;
    }
    for i := 0 to |ports|
      invariant forall j :: 0 <= j < i ==> !Matches(c, ports[j])
    {
      var p := ports[i];
      if p.name.Some? && p.name.value == c.portName {
        if p.port.Some? {
          FirstMatch(c, ports, i);
          return p.port.value;
        }
      }
    }
    NoMatch(c, ports);
    return 0;
  }

  function PortOf(c: Config, ports: seq<Port>): int {
    if ports == [] then 0
    else if c.portName == "" then (if ports[0].port.Some? then ports[0].port.value else 0)
    else Named(c, ports)
  }

  function Named(c: Config, ports: seq<Port>): int {
    if ports == [] then 0 else if Matches(c, ports[0]) then ports[0].port.value else Named(c, ports[1..])
  }

  lemma {:induction false} FirstMatch(c: Config, ports: seq<Port>, i: nat)
    requires i < |ports| && Matches(c, ports[i]) && forall j :: 0 <= j < i ==> !Matches(c, ports[j])
    ensures Named(c, ports) == ports[i].port.value
  {
    if i > 0 {
      FirstMatch(c, ports[1..], i - 1);
    }
  }

  lemma {:induction false} NoMatch(c: Config, ports: seq<Port>)
    requires forall j :: 0 <= j < |ports| ==> !Matches(c, ports[j])
    ensures Named(c, ports) == 0
  {
    if ports != [] {
      NoMatch(c, ports[1..]);
    }
  }

  // -- The desired state ----------------------------------------------------------------------

  /** One sighting of a URL. */
  datatype Seen = Seen(url: string, state: EpState)

  function SeenAddresses(c: Config, port: int, addresses: seq<string>, state: EpState): seq<Seen> {
    if addresses == [] then [] else
      SeenAddresses(c, port, addresses[..|addresses| - 1], state)
        + [Seen(c.url(addresses[|addresses| - 1], port), state)]
  }

  function SeenEndpoints(c: Config, port: int, endpoints: seq<Endpoint>): seq<Seen> {
    if endpoints == [] then [] else
      var last := endpoints[|endpoints| - 1];
      SeenEndpoints(c, port, endpoints[..|endpoints| - 1])
      + if Classify(last).Some? then SeenAddresses(c, port, last.addresses, Classify(last).value) else []
  }

  /** All sightings of a snapshot, in the order they are visited. */
  function Sightings(c: Config, slices: seq<Slice>): seq<Seen> {
    if slices == [] then [] else
      var last := slices[|slices| - 1];
      var port := PortOf(c, last.ports);
      Sightings(c, slices[..|slices| - 1]) + if port == 0 then [] else SeenEndpoints(c, port, last.endpoints)
  }

  /** The last sighting of a URL decides. */
  function Outcome(seen: seq<Seen>): map<string, EpState> {
    if seen == [] then map[] else Outcome(seen[..|seen| - 1])[seen[|seen| - 1].url := seen[|seen| - 1].state]
  }

  lemma OutcomePush(seen: seq<Seen>, s: Seen)
    ensures Outcome(seen + [s]) == Outcome(seen)[s.url := s.state]
  {
    assert (seen + [s])[..|seen + [s]| - 1] == seen;
  }

  /** A URL is desired active exactly when its last sighting is an active one. */
  lemma {:induction false} LastSightingDecides(seen: seq<Seen>, url: string, state: EpState)
    ensures url in Outcome(seen) && Outcome(seen)[url] == state <==>
            exists i :: 0 <= i < |seen| && LastSeenAt(seen, i, url, state)
  {
    if seen != [] {
      hide LastSeenAt;
      var before, last := seen[..|seen| - 1], seen[|seen| - 1];
      LastSightingDecides(before, url, state);
      forall i | 0 <= i < |seen|
        ensures LastSeenAt(seen, i, url, state) <==>
                if i == |before| then last == Seen(url, state) else last.url != url && LastSeenAt(before, i, url, state)
      {
        LastSeenGrow(seen, i, url, state);
      }
      assert last == Seen(url, state) ==> LastSeenAt(seen, |before|, url, state);
    }
  }

  /** Position `i` is the last sighting of the URL, and it is in this state. */
  ghost predicate LastSeenAt(seen: seq<Seen>, i: nat, url: string, state: EpState)
    requires i < |seen|
  {
    seen[i] == Seen(url, state) && forall j :: i < j < |seen| ==> seen[j].url != url
  }

  lemma LastSeenGrow(seen: seq<Seen>, i: nat, url: string, state: EpState)
    requires i < |seen|
    ensures var before, last := seen[..|seen| - 1], seen[|seen| - 1];
            LastSeenAt(seen, i, url, state) <==>
            if i == |before| then last == Seen(url, state) else last.url != url && LastSeenAt(before, i, url, state)
  {
    var before, last := seen[..|seen| - 1], seen[|seen| - 1];
    assert forall j :: 0 <= j < |before| ==> before[j] == seen[j];
    if i < |before| && last.url != url && LastSeenAt(before, i, url, state) {
      assert forall j :: i < j < |before| ==> seen[j] == before[j];
    }
  }

  // -- The same, read off the slices -------------------------------------------------------------

  /** The port that makes the URLs of a slice: the first one, or the first numbered one of the configured name. */
  ghost predicate IsPort(c: Config, ports: seq<Port>, p: int) {
    && p != 0
    && if c.portName == "" then ports != [] && ports[0].port == Some(p)
       else exists n :: 0 <= n < |ports| && ports[n].name == Some(c.portName) && ports[n].port == Some(p)
                        && forall m :: 0 <= m < n ==> !(ports[m].name == Some(c.portName) && ports[m].port.Some?)
  }

  predicate Ready(ep: Endpoint) {
    ep.ready == Some(true) && ep.terminating != Some(true)
  }

  predicate Leaving(ep: Endpoint) {
    ep.terminating == Some(true) && ep.serving == Some(true)
  }

  predicate HasState(ep: Endpoint, state: EpState) {
    match state
    case Active => Ready(ep)
    case Terminating => Leaving(ep)
  }

  ghost predicate Lists(c: Config, p: int, ep: Endpoint, url: string) {
    exists k :: 0 <= k < |ep.addresses| && c.url(ep.addresses[k], p) == url
  }

  /** Endpoint `j` is ready or leaving and has an address that makes the URL. */
  ghost predicate EndpointNames(c: Config, p: int, endpoints: seq<Endpoint>, j: nat, url: string)
    requires j < |endpoints|
  {
    (Ready(endpoints[j]) || Leaving(endpoints[j])) && Lists(c, p, endpoints[j], url)
  }

  /** Endpoint `j` is the last one that names the URL, and it is in this state. */
  ghost predicate LastEndpoint(c: Config, p: int, endpoints: seq<Endpoint>, j: nat, url: string, state: EpState)
    requires j < |endpoints|
  {
    && HasState(endpoints[j], state) && Lists(c, p, endpoints[j], url)
    && forall n :: j < n < |endpoints| ==> !EndpointNames(c, p, endpoints, n, url)
  }

  ghost predicate SliceNames(c: Config, slice: Slice, url: string) {
    exists p, j ::
      IsPort(c, slice.ports, p) && 0 <= j < |slice.endpoints| && EndpointNames(c, p, slice.endpoints, j, url)
  }

  ghost predicate SliceWants(c: Config, slice: Slice, url: string, state: EpState) {
    exists p, j :: IsPort(c, slice.ports, p) && 0 <= j < |slice.endpoints|
                   && LastEndpoint(c, p, slice.endpoints, j, url, state)
  }

  /** The last occurrence of the URL, in slice and endpoint order, is an address of an endpoint in this state. */
  ghost predicate Wanted(c: Config, slices: seq<Slice>, url: string, state: EpState) {
    exists i :: 0 <= i < |slices| && LastSlice(c, slices, i, url, state)
  }

  /** Slice `i` is the last one that names the URL, and its last endpoint that does is in this state. */
  ghost predicate LastSlice(c: Config, slices: seq<Slice>, i: nat, url: string, state: EpState)
    requires i < |slices|
  {
    SliceWants(c, slices[i], url, state) && forall n :: i < n < |slices| ==> !SliceNames(c, slices[n], url)
  }

  lemma PortIs(c: Config, ports: seq<Port>, p: int)
    ensures IsPort(c, ports, p) <==> p != 0 && PortOf(c, ports) == p
  {
    if c.portName != "" {
      if n :| 0 <= n < |ports| && Matches(c, ports[n]) && forall m :: 0 <= m < n ==> !Matches(c, ports[m]) {
        FirstMatch(c, ports, n);
      }
      var n := FirstOrNone(c, ports);
      if n == |ports| {
        NoMatch(c, ports);
      } else {
        FirstMatch(c, ports, n);
      }
    }
  }

  lemma {:induction false} FirstOrNone(c: Config, ports: seq<Port>) returns (n: nat)
    ensures n <= |ports| && (n < |ports| ==> Matches(c, ports[n])) && forall m :: 0 <= m < n ==> !Matches(c, ports[m])
  {
    if ports == [] {
      n := 0;
    } else {
      var last := |ports| - 1;
      n := FirstOrNone(c, ports[..last]);
      if n == last && !Matches(c, ports[last]) {
        n := |ports|;
      }
    }
  }

  predicate Has(m: map<string, EpState>, url: string, state: EpState) {
    url in m && m[url] == state
  }

  /** Later sightings win. */
  lemma {:induction false} OutcomeConcat(a: seq<Seen>, b: seq<Seen>, url: string, state: EpState)
    ensures Has(Outcome(a + b), url, state) <==>
            if url in Outcome(b) then Has(Outcome(b), url, state) else Has(Outcome(a), url, state)
  {
    if b == [] {
      assert a + b == a;
    } else {
      OutcomeConcat(a, b[..|b| - 1], url, state);
      assert (a + b)[..|a + b| - 1] == a + b[..|b| - 1];
    }
  }

  lemma {:induction false} AddressesDecide(c: Config, p: int, ep: Endpoint, n: nat, st: EpState, url: string)
    requires n <= |ep.addresses|
    ensures var m := Outcome(SeenAddresses(c, p, ep.addresses[..n], st));
            && (url in m <==> exists k :: 0 <= k < n && c.url(ep.addresses[k], p) == url)
            && (url in m ==> m[url] == st)
  {
    if n > 0 {
      AddressesDecide(c, p, ep, n - 1, st, url);
      assert ep.addresses[..n][..|ep.addresses[..n]| - 1] == ep.addresses[..n - 1];
      var before := SeenAddresses(c, p, ep.addresses[..n - 1], st);
      OutcomePush(before, Seen(c.url(ep.addresses[n - 1], p), st));
      if k :| 0 <= k < n && c.url(ep.addresses[k], p) == url && k < n - 1 {
        assert 0 <= k < n - 1;
      }
    }
  }

  /** What one endpoint contributes. */
  lemma EndpointDecides(c: Config, p: int, ep: Endpoint, url: string)
    ensures var seen := if Classify(ep).Some? then SeenAddresses(c, p, ep.addresses, Classify(ep).value) else [];
            && (url in Outcome(seen) <==> (Ready(ep) || Leaving(ep)) && Lists(c, p, ep, url))
            && forall st :: Has(Outcome(seen), url, st) <==> HasState(ep, st) && Lists(c, p, ep, url)
  {
    hide Lists;
    ClassifyIs(ep);
    hide Classify, Ready, Leaving, HasState;
    var seen := if Classify(ep).Some? then SeenAddresses(c, p, ep.addresses, Classify(ep).value) else [];
    if Classify(ep).Some? {
      AddressesListed(c, p, ep, Classify(ep).value, url);
    }
    forall st ensures Has(Outcome(seen), url, st) <==> HasState(ep, st) && Lists(c, p, ep, url) {
      assert HasState(ep, st) <==> Classify(ep) == Some(st);
    }
  }

  lemma ClassifyIs(ep: Endpoint)
    ensures Classify(ep).Some? <==> Ready(ep) || Leaving(ep)
    ensures forall st :: HasState(ep, st) <==> Classify(ep) == Some(st)
  {
    assert IsTrue(ep.ready) <==> ep.ready == Some(true);
    assert IsTrue(ep.serving) <==> ep.serving == Some(true);
    assert IsTrue(ep.terminating) <==> ep.terminating == Some(true);
    assert HasState(ep, Active) <==> Classify(ep) == Some(Active);
    assert HasState(ep, Terminating) <==> Classify(ep) == Some(Terminating);
    forall st ensures HasState(ep, st) <==> Classify(ep) == Some(st) {
      assert st == Active || st == Terminating;
    }
  }

  lemma AddressesListed(c: Config, p: int, ep: Endpoint, st: EpState, url: string)
    ensures var m := Outcome(SeenAddresses(c, p, ep.addresses, st));
            (url in m <==> Lists(c, p, ep, url)) && (url in m ==> m[url] == st)
  {
    AddressesDecide(c, p, ep, |ep.addresses|, st, url);
    assert ep.addresses[..|ep.addresses|] == ep.addresses;
  }

  lemma {:induction false} EndpointsDecide(c: Config, p: int, endpoints: seq<Endpoint>, url: string)
    ensures url in Outcome(SeenEndpoints(c, p, endpoints)) <==>
            exists j :: 0 <= j < |endpoints| && EndpointNames(c, p, endpoints, j, url)
    ensures forall st :: Has(Outcome(SeenEndpoints(c, p, endpoints)), url, st) <==>
            exists j :: 0 <= j < |endpoints| && LastEndpoint(c, p, endpoints, j, url, st)
  {
    if endpoints != [] {
      hide Classify, Lists, HasState, Ready, Leaving;
      var before, ep := endpoints[..|endpoints| - 1], endpoints[|endpoints| - 1];
      var seen := if Classify(ep).Some? then SeenAddresses(c, p, ep.addresses, Classify(ep).value) else [];
      EndpointsDecide(c, p, before, url);
      EndpointDecides(c, p, ep, url);
      forall st
        ensures Has(Outcome(SeenEndpoints(c, p, endpoints)), url, st) <==>
                exists j :: 0 <= j < |endpoints| && LastEndpoint(c, p, endpoints, j, url, st)
      {
        OutcomeConcat(SeenEndpoints(c, p, before), seen, url, st);
        LastEndpointGrow(c, p, endpoints, url, st);
      }
      NamesGrow(c, p, endpoints, url);
      OutcomeKeys(SeenEndpoints(c, p, before), seen, url);
    }
  }

  lemma OutcomeKeys(a: seq<Seen>, b: seq<Seen>, url: string)
    ensures url in Outcome(a + b) <==> url in Outcome(a) || url in Outcome(b)
  {
    OutcomeConcat(a, b, url, Active);
    OutcomeConcat(a, b, url, Terminating);
    assert url in Outcome(a + b) ==> Has(Outcome(a + b), url, Outcome(a + b)[url]);
    if url in Outcome(b) {
      assert Has(Outcome(b), url, Outcome(b)[url]);
    } else if url in Outcome(a) {
      assert Has(Outcome(a), url, Outcome(a)[url]);
    }
  }

  lemma NamesGrow(c: Config, p: int, endpoints: seq<Endpoint>, url: string)
    requires endpoints != []
    ensures var n := |endpoints| - 1;
            (exists j :: 0 <= j < |endpoints| && EndpointNames(c, p, endpoints, j, url)) <==>
            (|| EndpointNames(c, p, endpoints, n, url)
             || exists j :: 0 <= j < n && EndpointNames(c, p, endpoints[..n], j, url))
  {
    hide Lists, Ready, Leaving;
    var n := |endpoints| - 1;
    forall j | 0 <= j < n
      ensures EndpointNames(c, p, endpoints, j, url) <==> EndpointNames(c, p, endpoints[..n], j, url)
    {
    }
  }

  lemma LastEndpointGrow(c: Config, p: int, endpoints: seq<Endpoint>, url: string, st: EpState)
    requires endpoints != []
    ensures var n := |endpoints| - 1;
            (exists j :: 0 <= j < |endpoints| && LastEndpoint(c, p, endpoints, j, url, st)) <==>
            if EndpointNames(c, p, endpoints, n, url) then HasState(endpoints[n], st)
            else exists j :: 0 <= j < n && LastEndpoint(c, p, endpoints[..n], j, url, st)
  {
    hide Lists;
    var n := |endpoints| - 1;
    forall j | 0 <= j < n
      ensures LastEndpoint(c, p, endpoints, j, url, st) <==>
              LastEndpoint(c, p, endpoints[..n], j, url, st) && !EndpointNames(c, p, endpoints, n, url)
    {
      forall i | 0 <= i < n
        ensures EndpointNames(c, p, endpoints, i, url) <==> EndpointNames(c, p, endpoints[..n], i, url)
      {
      }
    }
    assert LastEndpoint(c, p, endpoints, n, url, st) <==> HasState(endpoints[n], st) && Lists(c, p, endpoints[n], url);
  }

  /** What one slice contributes. */
  lemma SliceDecides(c: Config, slice: Slice, url: string)
    ensures var port := PortOf(c, slice.ports);
            var seen := if port == 0 then [] else SeenEndpoints(c, port, slice.endpoints);
            && (url in Outcome(seen) <==> SliceNames(c, slice, url))
            && forall st :: Has(Outcome(seen), url, st) <==> SliceWants(c, slice, url, st)
  {
    hide PortOf, IsPort, EndpointNames, LastEndpoint, SeenEndpoints;
    forall p ensures IsPort(c, slice.ports, p) <==> p != 0 && PortOf(c, slice.ports) == p {
      PortIs(c, slice.ports, p);
    }
    EndpointsDecide(c, PortOf(c, slice.ports), slice.endpoints, url);
  }

  /** A URL is desired in a state if and only if its last occurrence in the slices is in that state. */
  lemma {:induction false} DesiredIff(c: Config, slices: seq<Slice>, url: string, st: EpState)
    ensures Has(Outcome(Sightings(c, slices)), url, st) <==> Wanted(c, slices, url, st)
  {
    if slices != [] {
      hide PortOf, SliceNames, SliceWants, SeenEndpoints, Wanted;
      var n := |slices| - 1;
      var before, slice := slices[..n], slices[n];
      var seen := if PortOf(c, slice.ports) == 0 then [] else SeenEndpoints(c, PortOf(c, slice.ports), slice.endpoints);
      DesiredIff(c, before, url, st);
      SliceDecides(c, slice, url);
      OutcomeConcat(Sightings(c, before), seen, url, st);
      WantedGrow(c, slices, url, st);
    }
  }

  lemma WantsNames(c: Config, slice: Slice, url: string, st: EpState)
    ensures SliceWants(c, slice, url, st) ==> SliceNames(c, slice, url)
  {
    hide IsPort, Lists;
    if p, j :| IsPort(c, slice.ports, p) && 0 <= j < |slice.endpoints|
               && LastEndpoint(c, p, slice.endpoints, j, url, st) {
      assert EndpointNames(c, p, slice.endpoints, j, url);
    }
  }

  lemma WantedGrow(c: Config, slices: seq<Slice>, url: string, st: EpState)
    requires slices != []
    ensures var before, slice := slices[..|slices| - 1], slices[|slices| - 1];
            Wanted(c, slices, url, st) <==>
            if SliceNames(c, slice, url) then SliceWants(c, slice, url, st) else Wanted(c, before, url, st)
  {
    hide SliceNames, SliceWants;
    var n := |slices| - 1;
    var before := slices[..n];
    WantsNames(c, slices[n], url, st);
    forall i | 0 <= i < n
      ensures LastSlice(c, slices, i, url, st) <==> LastSlice(c, before, i, url, st) && !SliceNames(c, slices[n], url)
    {
      assert forall m :: 0 <= m < n ==> before[m] == slices[m];
    }
    assert LastSlice(c, slices, n, url, st) <==> SliceWants(c, slices[n], url, st);
  }

  /** buildDesiredState: three nested loops that write a map. */
  method BuildDesiredState(c: Config, slices: seq<Slice>) returns (desired: map<string, EpState>)
    ensures desired == Desired(c, slices)
    ensures forall url, st :: Has(desired, url, st) <==> Wanted(c, slices, url, st)
  {
    desired := VisitSlices(c, slices);
    forall url, st ensures Has(desired, url, st) <==> Wanted(c, slices, url, st) {
      DesiredIff(c, slices, url, st);
    }
  }

  function Desired(c: Config, slices: seq<Slice>): map<string, EpState> {
    Outcome(Sightings(c, slices))
  }

  method VisitSlices(c: Config, slices: seq<Slice>) returns (desired: map<string, EpState>)
    ensures desired == Outcome(Sightings(c, slices))
  {
    desired := map[];
    for i := 0 to |slices|
      invariant desired == Outcome(Sightings(c, slices[..i]))
    {
      var slice := slices[i];
      assert slices[..i + 1][..|slices[..i + 1]| - 1] == slices[..i];
      var port := ResolvePort(c, slice.ports);
      if port == 0 {
        assert Sightings(c, slices[..i]) + [] == Sightings(c, slices[..i]);
        continue;
      }
      desired := AddEndpoints(c, port, slice.endpoints, desired, Sightings(c, slices[..i]));
    }
    assert slices[..|slices|] == slices;
  }

  method AddEndpoints(c: Config, port: int, endpoints: seq<Endpoint>, desired0: map<string, EpState>,
                      ghost seen: seq<Seen>)
    returns (desired: map<string, EpState>)
    requires desired0 == Outcome(seen)
    ensures desired == Outcome(seen + SeenEndpoints(c, port, endpoints))
  {
    desired := desired0;
    assert seen + [] == seen;
    for i := 0 to |endpoints|
      invariant desired == Outcome(seen + SeenEndpoints(c, port, endpoints[..i]))
    {
      var ep := endpoints[i];
      assert endpoints[..i + 1][..|endpoints[..i + 1]| - 1] == endpoints[..i];
      ghost var sofar := seen + SeenEndpoints(c, port, endpoints[..i]);
      var ready, serving, terminating := IsTrue(ep.ready), IsTrue(ep.serving), IsTrue(ep.terminating);
      assert sofar + [] == sofar;
      for j := 0 to |ep.addresses|
        invariant desired == Outcome(sofar + if Classify(ep).Some?
                  then SeenAddresses(c, port, ep.addresses[..j], Classify(ep).value) else [])
      {
        var url := c.url(ep.addresses[j], port);
        AddressNext(c, port, ep, sofar, j);
        if ready && !terminating {
          desired := desired[url := Active];
        } else if terminating && serving {
          desired := desired[url := Terminating];
        }
      }
      assert ep.addresses[..|ep.addresses|] == ep.addresses;
      EndpointNext(c, port, endpoints, i, seen);
    }
    assert endpoints[..|endpoints|] == endpoints;
  }

  lemma EndpointNext(c: Config, port: int, endpoints: seq<Endpoint>, i: nat, seen: seq<Seen>)
    requires i < |endpoints|
    ensures var ep := endpoints[i];
            seen + SeenEndpoints(c, port, endpoints[..i + 1]) ==
            seen + SeenEndpoints(c, port, endpoints[..i])
            + if Classify(ep).Some? then SeenAddresses(c, port, ep.addresses, Classify(ep).value) else []
  {
    assert endpoints[..i + 1][..|endpoints[..i + 1]| - 1] == endpoints[..i];
  }

  lemma AddressNext(c: Config, port: int, ep: Endpoint, sofar: seq<Seen>, j: nat)
    requires j < |ep.addresses|
    ensures Classify(ep).Some? ==>
              var before := Outcome(sofar + SeenAddresses(c, port, ep.addresses[..j], Classify(ep).value));
              Outcome(sofar + SeenAddresses(c, port, ep.addresses[..j + 1], Classify(ep).value))
              == before[c.url(ep.addresses[j], port) := Classify(ep).value]
  {
    if Classify(ep).Some? {
      var state := Classify(ep).value;
      assert ep.addresses[..j + 1][..|ep.addresses[..j + 1]| - 1] == ep.addresses[..j];
      var before := sofar + SeenAddresses(c, port, ep.addresses[..j], state);
      assert sofar + SeenAddresses(c, port, ep.addresses[..j + 1], state) == before
        + [Seen(c.url(ep.addresses[j], port), state)];
      OutcomePush(before, Seen(c.url(ep.addresses[j], port), state));
    }
  }

  // -- Applying it --------------------------------------------------------------------------------

  datatype State = State(known: map<string, EpState>, active: set<string>)

  /** URLs the step adds: desired active and not known active before. */
  function ToAdd(s: State, desired: map<string, EpState>): set<string> {
    set u | u in desired && desired[u].Active? && !(u in s.known && s.known[u].Active?)
  }

  /** URLs the step removes: newly terminating, or gone. */
  function ToRemove(s: State, desired: map<string, EpState>): set<string> {
    (set u | u in desired && desired[u].Terminating? && !(u in s.known && s.known[u].Terminating?))
    + (s.known.Keys - desired.Keys)
  }

  function Applied(s: State, desired: map<string, EpState>): State {
    State(desired, s.active + ToAdd(s, desired) - ToRemove(s, desired))
  }

  class Discovery {
    var known: map<string, EpState>
    var active: set<string>  // the store's active backends

    constructor (active: set<string>)
      ensures Current() == State(map[], active)
    {
      known, this.active := map[], active;
    }

    ghost function Current(): State
      reads this
    {
      State(known, active)
    }

    method ApplyDesiredState(desired: map<string, EpState>)
      modifies this
      ensures Current() == Applied(old(Current()), desired)
    {
      var prev := known;
      known := desired;
      var todo := desired.Keys;
      while todo != {}
        invariant todo <= desired.Keys && known == desired
        invariant forall u :: u in active <==>
                              if u in desired && u !in todo && u in ToAdd(old(Current()), desired) then true
                              else if u in desired && u !in todo && u in ToRemove(old(Current()), desired) then false
                              else u in old(active)
      {
        var url :| url in todo;
        todo := todo - {url};
        match desired[url]
        case Active =>
          if url !in prev || !prev[url].Active? {
            active := active + {url};
          }
        case Terminating =>
          if url !in prev || !prev[url].Terminating? {
            active := active - {url};
          }
      }
      var gone := prev.Keys;
      while gone != {}
        invariant gone <= prev.Keys && known == desired
        invariant forall u :: u in active <==>
                              if u in ToAdd(old(Current()), desired) then true
                              else if u in ToRemove(old(Current()), desired) && u !in gone then false
                              else if u in desired && u in ToRemove(old(Current()), desired) then false
                              else u in old(active)
      {
        var url :| url in gone;
        gone := gone - {url};
        if url !in desired {
          active := active - {url};
        }
      }
      assert active == Applied(old(Current()), desired).active;
    }
  }

  /** Reconciling a sequence of snapshots, from an arbitrary active set. */
  function Run(active: set<string>, snapshots: seq<map<string, EpState>>): State {
    if snapshots == [] then State(map[], active)
    else Applied(Run(active, snapshots[..|snapshots| - 1]), snapshots[|snapshots| - 1])
  }

  predicate EverSeen(snapshots: seq<map<string, EpState>>, url: string) {
    exists i :: 0 <= i < |snapshots| && url in snapshots[i]
  }

  /**
   * Among URLs ever seen, the active set is exactly those active in the last snapshot; URLs never seen are
   * untouched.
   */
  lemma {:induction false} ActiveFollowsLastSnapshot(active: set<string>, snapshots: seq<map<string, EpState>>,
                                                     url: string)
    ensures snapshots != [] ==> Run(active, snapshots).known == snapshots[|snapshots| - 1]
    ensures EverSeen(snapshots, url) ==>
              (url in Run(active, snapshots).active <==>
                url in snapshots[|snapshots| - 1] && snapshots[|snapshots| - 1][url].Active?)
    ensures !EverSeen(snapshots, url) ==> (url in Run(active, snapshots).active <==> url in active)
  {
    if snapshots != [] {
      var before, last := snapshots[..|snapshots| - 1], snapshots[|snapshots| - 1];
      ActiveFollowsLastSnapshot(active, before, url);
      if EverSeen(before, url) {
        var i :| 0 <= i < |before| && url in before[i];
        assert url in snapshots[i];
      }
      assert url in last ==> url in snapshots[|snapshots| - 1];
      if i :| 0 <= i < |snapshots| && url in snapshots[i] && i < |before| {
        assert url in before[i];
      }
    }
  }

  // -- Over snapshots of slices ----------------------------------------------------------------------

  function DesiredAll(c: Config, snapshots: seq<seq<Slice>>): (all: seq<map<string, EpState>>)
    ensures |all| == |snapshots| && forall i :: 0 <= i < |snapshots| ==> all[i] == Desired(c, snapshots[i])
  {
    seq(|snapshots|, i requires 0 <= i < |snapshots| => Desired(c, snapshots[i]))
  }

  ghost predicate EverWanted(c: Config, snapshots: seq<seq<Slice>>, url: string) {
    exists i, st :: 0 <= i < |snapshots| && Wanted(c, snapshots[i], url, st)
  }

  /**
   * Over any sequence of snapshots: a URL that ever occurred is an active backend exactly if its last occurrence in the
   * last snapshot is an address of a ready endpoint; any other URL is untouched.
   */
  lemma ActiveFollowsEndpoints(c: Config, active: set<string>, snapshots: seq<seq<Slice>>, url: string)
    ensures EverWanted(c, snapshots, url) ==>
            snapshots != [] && (url in Run(active, DesiredAll(c, snapshots)).active <==>
                                Wanted(c, snapshots[|snapshots| - 1], url, Active))
    ensures !EverWanted(c, snapshots, url) ==> (url in Run(active, DesiredAll(c, snapshots)).active <==> url in active)
  {
    hide Desired, Wanted, Run;
    var all := DesiredAll(c, snapshots);
    ActiveFollowsLastSnapshot(active, all, url);
    forall i, st | 0 <= i < |snapshots| ensures Has(all[i], url, st) <==> Wanted(c, snapshots[i], url, st) {
      WantedIs(c, snapshots[i], url, st);
    }
    if i :| 0 <= i < |all| && url in all[i] {
      assert Has(all[i], url, all[i][url]);
    }
    if i, st :| 0 <= i < |snapshots| && Wanted(c, snapshots[i], url, st) {
      assert Has(all[i], url, st) && url in all[i];
    }
    if snapshots != [] {
      assert Has(all[|all| - 1], url, Active) <==> Wanted(c, snapshots[|snapshots| - 1], url, Active);
    }
  }

  lemma WantedIs(c: Config, slices: seq<Slice>, url: string, st: EpState)
    ensures Has(Desired(c, slices), url, st) <==> Wanted(c, slices, url, st)
  {
    DesiredIff(c, slices, url, st);
  }
}
