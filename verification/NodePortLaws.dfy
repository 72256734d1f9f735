// What allocation promises: ranges, distinctness, lowest-free choice, what a
// heal achieves, and exactly which requests the port-by-port order lets
// through and which number each of their ports gets.
module NodePortLaws {
  import opened Options
  import opened Json
  import opened Storage
  import opened Objects
  import opened NodePorts

  // --- Reading a port --------------------------------------------------------------------------

  /**
   * What a port entry asks for: no number if `nodePort` is missing or null, a
   * number if it is an integer of 16 bits, and nonsense otherwise. Its protocol
   * is the string it names, and `TCP` if it names none.
   */
  lemma PortReads(port: Value)
    ensures ExplicitNodePort(port) == Unset <==> port.Get("nodePort") in {None, Some(Null)}
    ensures forall n: nat ::
      ExplicitNodePort(port) == Asked(n) <==> n <= 65535 && port.Get("nodePort") == Some(Integer(n))
    ensures forall p :: port.Get("protocol") == Some(String(p)) ==> ProtocolOf(port) == p
    ensures (forall p :: port.Get("protocol") != Some(String(p))) ==> ProtocolOf(port) == "TCP"
  {
    match port.Get("protocol") {
      case None =>
      case Some(p) => if p.String? { assert port.Get("protocol") == Some(String(p.s)); }
    }
  }

  /** Which Services have node ports at all. */
  lemma NodePortTypes(v: Value)
    ensures IsNodePortType(v) <==> SpecGet(v, "type") in {Some(String("NodePort")), Some(String("LoadBalancer"))}
  {
    SpecMember(v, "type");
  }

  // --- One list of ports -----------------------------------------------------------------------

  predicate InNodePortRange(n: nat) {
    30000 <= n <= 32767
  }

  /** What port `i` was given: its own number, or the lowest free one at its turn. */
  ghost predicate GivenPair(ports: seq<Value>, used: set<Pair>, taken: seq<Pair>, i: nat)
    requires i < |taken| <= |ports|
  {
    && taken[i].0 == ProtocolOf(ports[i]) && InNodePortRange(taken[i].1) && taken[i] !in used
    && (forall j :: 0 <= j < i ==> taken[j] != taken[i])
    && !ExplicitNodePort(ports[i]).Malformed?
    && (ExplicitNodePort(ports[i]).Asked? ==> taken[i].1 == ExplicitNodePort(ports[i]).n)
    && (ExplicitNodePort(ports[i]).Unset? ==>
          forall m :: NODE_PORT_MIN <= m < taken[i].1 ==> (taken[i].0, m) in used + Elements(taken[..i]))
  }

  ghost predicate AllGiven(ports: seq<Value>, used: set<Pair>, taken: seq<Pair>) {
    |taken| <= |ports| && forall i :: 0 <= i < |taken| ==> GivenPair(ports, used, taken, i)
  }

  lemma {:induction false} ProgressGives(ports: seq<Value>, used: set<Pair>)
    ensures AllGiven(ports, used, Progress(ports, used).0)
  {
    hide ExplicitNodePort, ProtocolOf, GivenPair, Turn;
    if ports != [] {
      var front := ports[..|ports| - 1];
      ProgressGives(front, used);
      var before := Progress(front, used).0;
      var taken := Progress(ports, used).0;
      assert before <= taken && |taken| <= |before| + 1;
      forall i | 0 <= i < |taken| ensures GivenPair(ports, used, taken, i) {
        if i < |before| {
          GivenStays(front, ports, used, before, taken, i);
        } else {
          LastGiven(ports, used, before, taken);
        }
      }
    }
  }

  lemma GivenStays(front: seq<Value>, ports: seq<Value>, used: set<Pair>, before: seq<Pair>, taken: seq<Pair>, i: nat)
    requires front <= ports && before <= taken && i < |before| <= |front| && |taken| <= |ports|
    requires GivenPair(front, used, before, i)
    ensures GivenPair(ports, used, taken, i)
  {
  }

  lemma LastGiven(ports: seq<Value>, used: set<Pair>, before: seq<Pair>, taken: seq<Pair>)
    requires |before| + 1 == |taken| == |ports| && before == taken[..|before|]
    requires Turn(ports[|before|], used, before) == Ok(taken[|before|])
    ensures GivenPair(ports, used, taken, |before|)
  {
  }

  /** A filled port shows the pair it was given; everything else about it stays. */
  lemma FilledShows(port: Value, pair: Pair)
    requires pair.0 == ProtocolOf(port) && pair.1 < 0x10000 && port.Object?
    requires ExplicitNodePort(port) in [Unset, Asked(pair.1)]
    ensures
      var p := Filled(port, pair);
      && ExplicitNodePort(p) == Asked(pair.1) && ProtocolOf(p) == pair.0
      && forall k :: k != "nodePort" ==> p.Get(k) == port.Get(k)
  {
  }

  /** A port that is no object shows nothing. */
  lemma NonObjectShows(port: Value)
    ensures !port.Object? ==> ExplicitNodePort(port) == Unset
  {
  }

  /** The pairs the filled list shows: those given to its objects. */
  lemma ShownAfter(ports: seq<Value>, used: set<Pair>)
    requires Progress(ports, used).1.None?
    ensures
      var taken := Progress(ports, used).0;
      forall p :: p in ShownPairs(FilledAll(ports, taken)) <==>
        exists i :: 0 <= i < |ports| && ports[i].Object? && taken[i] == p
  {
    hide ExplicitNodePort, ProtocolOf, Progress;
    ProgressGives(ports, used);
    var taken := Progress(ports, used).0;
    var filled := FilledAll(ports, taken);
    forall i | 0 <= i < |ports|
      ensures ports[i].Object? ==>
        ExplicitNodePort(filled[i]).Asked? && (ProtocolOf(filled[i]), ExplicitNodePort(filled[i]).n) == taken[i]
      ensures !ports[i].Object? ==> !ExplicitNodePort(filled[i]).Asked?
    {
      assert GivenPair(ports, used, taken, i);
      if ports[i].Object? { FilledShows(ports[i], taken[i]); } else { NonObjectShows(ports[i]); }
    }
  }

  // --- One Service ----------------------------------------------------------------------------------

  lemma SpecMember(v: Value, key: string)
    ensures v.Pointer(["spec", key]) ==
      match v.Get("spec") { case None => None case Some(spec) => spec.Get(key) }
  {
    TwoSteps(v, "spec");
  }

  /** Defaulting keeps the type of a NodePort Service and makes no other Service one. */
  lemma DefaultedShape(body: Value, used: set<Pair>)
    ensures
      var d := DefaultedService(body, used);
      && IsNodePortType(d.body) == IsNodePortType(body)
      && (!IsNodePortType(body) ==> d.used == used && d.error.None?)
      && (IsNodePortType(body) ==>
            var (taken, error) := Progress(SpecPorts(body), used);
            && SpecPorts(d.body) == FilledAll(SpecPorts(body), taken)
            && d.error == error && d.used == used + Elements(taken))
  {
    hide Progress, FilledAll, Elements, Value.Pointer;
    var d := DefaultedService(body, used);
    SpecMember(body, "type");
    SpecMember(body, "ports");
    SpecMember(d.body, "type");
    SpecMember(d.body, "ports");
    NothingToDo(used);
  }

  /** A member of `spec`. */
  function SpecGet(v: Value, key: string): Option<Value> {
    match v.Get("spec")
    case None => None
    case Some(spec) => spec.Get(key)
  }

  /**
   * What defaulting leaves alone, and the type it fills in: a Service without
   * a type, or with an empty one or one that is no string, becomes a `ClusterIP`;
   * nothing else of the body changes but the ports of a NodePort Service. A body
   * or a `spec` of another shape is not touched.
   */
  lemma DefaultedTypeIs(body: Value, used: set<Pair>)
    ensures
      var d := DefaultedService(body, used).body;
      var spec := body.Get("spec");
      && (forall k :: k != "spec" ==> d.Get(k) == body.Get(k))
      && (forall k :: k !in {"type", "ports"} ==> SpecGet(d, k) == SpecGet(body, k))
      && (!body.Object? || (spec.Some? && !spec.value.Object?) ==> d == body)
      && (body.Object? && (spec.Some? ==> spec.value.Object?) ==>
            && SpecGet(d, "type") == (if NamesType(SpecGet(body, "type")) then SpecGet(body, "type")
                                      else Some(String("ClusterIP")))
            && (SpecGet(d, "type") !in {Some(String("NodePort")), Some(String("LoadBalancer"))} ==>
                  SpecGet(d, "ports") == SpecGet(body, "ports")))
  {
    hide Progress, FilledAll, Elements;
  }

  predicate NamesType(ty: Option<Value>) {
    ty.Some? && ty.value.String? && ty.value.s != ""
  }

  lemma NothingToDo(used: set<Pair>)
    ensures Progress([], used) == ([], None) && FilledAll([], []) == [] && Elements([]) == {}
  {
  }

  ghost predicate ObjectPorts(v: Value) {
    forall i :: 0 <= i < |SpecPorts(v)| ==> SpecPorts(v)[i].Object?
  }

  /**
   * What a successful defaulting promises: every port of a NodePort Service is
   * in range; its pairs are distinct and disjoint from those in use; an
   * explicit number is kept and any other is the lowest free at its turn; and
   * the pairs in use grow by exactly what the Service now shows, except that a
   * port entry that is no object uses one up without showing it.
   */
  lemma DefaultedIsSound(body: Value, used: set<Pair>)
    requires DefaultedService(body, used).error.None?
    ensures
      var d := DefaultedService(body, used);
      && NodePortsOf(d.body) !! used
      && used + NodePortsOf(d.body) <= d.used
      && (ObjectPorts(body) ==> d.used == used + NodePortsOf(d.body))
      && (forall p :: p in NodePortsOf(d.body) ==> InNodePortRange(p.1))
    ensures IsNodePortType(body) ==>
      var taken := Progress(SpecPorts(body), used).0;
      && |taken| == |SpecPorts(body)| == |SpecPorts(DefaultedService(body, used).body)|
      && forall i :: 0 <= i < |taken| ==>
           && GivenPair(SpecPorts(body), used, taken, i)
           && SpecPorts(DefaultedService(body, used).body)[i] == Filled(SpecPorts(body)[i], taken[i])
  {
    hide ExplicitNodePort, ProtocolOf, Progress, DefaultedService, IsNodePortType, SpecPorts, ShownPairs;
    DefaultedShape(body, used);
    if IsNodePortType(body) {
      var ports := SpecPorts(body);
      ProgressGives(ports, used);
      ShownAfter(ports, used);
      var taken := Progress(ports, used).0;
      forall p | p in Elements(taken) ensures p !in used && InNodePortRange(p.1) {
        var i :| 0 <= i < |taken| && taken[i] == p;
        assert GivenPair(ports, used, taken, i);
      }
      if ObjectPorts(body) {
        forall p | p in Elements(taken) ensures p in NodePortsOf(DefaultedService(body, used).body) {
          var i :| 0 <= i < |taken| && taken[i] == p;
        }
      }
    }
  }

  // --- What several Services hold -------------------------------------------------------------------

  lemma {:induction false} UsedHasAll(services: seq<Value>, i: nat)
    requires i < |services|
    ensures NodePortsOf(services[i]) <= UsedNodePorts(services)
  {
    if i < |services| - 1 {
      UsedHasAll(services[..|services| - 1], i);
    }
  }

  lemma {:induction false} UsedIsHeld(services: seq<Value>, pair: Pair)
    requires pair in UsedNodePorts(services)
    ensures exists i :: 0 <= i < |services| && pair in NodePortsOf(services[i])
  {
    hide NodePortsOf;
    var front := services[..|services| - 1];
    if pair in UsedNodePorts(front) {
      UsedIsHeld(front, pair);
      var i :| 0 <= i < |front| && pair in NodePortsOf(front[i]);
      assert services[i] == front[i];
    }
  }

  // --- Exactly which requests pass -----------------------------------------------------------------------

  /** How many ports of `proto` before `i` leave their number open. */
  function OpenBefore(ports: seq<Value>, i: nat, proto: string): nat
    requires i <= |ports|
  {
    if i == 0 then 0 else
      OpenBefore(ports, i - 1, proto)
      + if ExplicitNodePort(ports[i - 1]).Unset? && ProtocolOf(ports[i - 1]) == proto then 1 else 0
  }

  /** The numbers below `limit` that nobody holds or asked for so far. */
  function FreeBelow(ports: seq<Value>, used: set<Pair>, i: nat, proto: string, limit: nat): set<nat>
    requires i <= |ports|
  {
    set n: nat | NODE_PORT_MIN <= n < limit && (proto, n) !in used && (proto, n) !in ShownPairs(ports[..i])
  }

  /**
   * What the caller can check of port `i`: an explicit number is in range, not
   * in use, not asked for twice, and too high to be handed to one of the open
   * ports before it; an open port finds a number left.
   */
  predicate Passes(ports: seq<Value>, used: set<Pair>, i: nat)
    requires i < |ports|
  {
    var proto := ProtocolOf(ports[i]);
    match ExplicitNodePort(ports[i])
    case Malformed => false
    case Asked(n) =>
      && InNodePortRange(n) && (proto, n) !in used && (proto, n) !in ShownPairs(ports[..i])
      && OpenBefore(ports, i, proto) <= |FreeBelow(ports, used, i, proto, n)|
    case Unset => OpenBefore(ports, i, proto) < |FreeBelow(ports, used, i, proto, NODE_PORT_MAX + 1)|
  }

  /** The numbers of `proto` handed to open ports. */
  ghost function Allotted(ports: seq<Value>, taken: seq<Pair>, proto: string): set<nat>
    requires |taken| <= |ports|
  {
    set i | 0 <= i < |taken| && ExplicitNodePort(ports[i]).Unset? && taken[i].0 == proto :: taken[i].1
  }

  lemma AllottedSnoc(ports: seq<Value>, taken: seq<Pair>, pair: Pair, proto: string)
    requires |taken| < |ports|
    ensures Allotted(ports, taken + [pair], proto) ==
      Allotted(ports, taken, proto)
      + if ExplicitNodePort(ports[|taken|]).Unset? && pair.0 == proto then {pair.1} else {}
  {
  }

  /** Each open port got a number of its own. */
  lemma {:induction false} AllottedCount(ports: seq<Value>, used: set<Pair>, taken: seq<Pair>, proto: string)
    requires AllGiven(ports, used, taken)
    ensures |Allotted(ports, taken, proto)| == OpenBefore(ports, |taken|, proto)
    decreases |taken|
  {
    hide ExplicitNodePort, ProtocolOf, GivenPair, Allotted;
    if taken == [] {
      NothingAllotted(ports, proto);
    } else {
      var n := |taken| - 1;
      var front, pair := taken[..n], taken[n];
      assert taken == front + [pair];
      PrefixIsGiven(ports, used, taken, n);
      AllottedCount(ports, used, front, proto);
      AllottedSnoc(ports, front, pair, proto);
      LastIsNew(ports, used, taken, proto);
    }
  }

  lemma NothingAllotted(ports: seq<Value>, proto: string)
    ensures Allotted(ports, [], proto) == {}
  {
  }

  lemma PrefixIsGiven(ports: seq<Value>, used: set<Pair>, taken: seq<Pair>, n: nat)
    requires AllGiven(ports, used, taken) && n <= |taken|
    ensures AllGiven(ports, used, taken[..n])
  {
    hide ExplicitNodePort, ProtocolOf;
    forall i | 0 <= i < n ensures GivenPair(ports, used, taken[..n], i) {
      assert GivenPair(ports, used, taken, i);
      assert taken[..n][..i] == taken[..i];
    }
  }

  lemma LastIsNew(ports: seq<Value>, used: set<Pair>, taken: seq<Pair>, proto: string)
    requires AllGiven(ports, used, taken) && taken != []
    ensures
      var n := |taken| - 1;
      && taken[n].0 == ProtocolOf(ports[n])
      && (taken[n].0 == proto ==> taken[n].1 !in Allotted(ports, taken[..n], proto))
  {
    hide ExplicitNodePort, ProtocolOf;
    var n := |taken| - 1;
    var front := taken[..n];
    assert GivenPair(ports, used, taken, n);
    forall i | 0 <= i < |front| ensures front[i] != taken[n] {
      assert front[i] == taken[i];
    }
  }

  /** What is taken is what was shown and what was allotted. */
  lemma TakenIs(ports: seq<Value>, used: set<Pair>, taken: seq<Pair>, proto: string, n: nat)
    requires AllGiven(ports, used, taken)
    ensures (proto, n) in Elements(taken)
       <==> (proto, n) in ShownPairs(ports[..|taken|]) || n in Allotted(ports, taken, proto)
    ensures !((proto, n) in ShownPairs(ports[..|taken|]) && n in Allotted(ports, taken, proto))
    ensures (proto, n) in Elements(taken) ==> (proto, n) !in used && InNodePortRange(n)
  {
    hide ProtocolOf, ExplicitNodePort;
    var asked := ports[..|taken|];
    if (proto, n) in Elements(taken) {
      var i :| 0 <= i < |taken| && taken[i] == (proto, n);
      assert GivenPair(ports, used, taken, i) && asked[i] == ports[i];
    }
    if (proto, n) in ShownPairs(asked) {
      var i :| 0 <= i < |asked| && ExplicitNodePort(asked[i]).Asked? &&
        (ProtocolOf(asked[i]), ExplicitNodePort(asked[i]).n) == (proto, n);
      assert GivenPair(ports, used, taken, i) && taken[i] == (proto, n);
      forall j | 0 <= j < |taken| && ExplicitNodePort(ports[j]).Unset? ensures taken[j] != taken[i] {
        assert GivenPair(ports, used, taken, j);
      }
    }
  }

  /** Below an allotted number nothing is free. */
  lemma AllottedIsLow(ports: seq<Value>, used: set<Pair>, taken: seq<Pair>, proto: string, n: nat, m: nat)
    requires AllGiven(ports, used, taken)
    requires n in Allotted(ports, taken, proto) && NODE_PORT_MIN <= m < n
    ensures (proto, m) in used + Elements(taken)
  {
    hide ProtocolOf, ExplicitNodePort;
    var i :| 0 <= i < |taken| && ExplicitNodePort(ports[i]).Unset? && taken[i].0 == proto && taken[i].1 == n;
    assert GivenPair(ports, used, taken, i);
    if (proto, m) in Elements(taken[..i]) {
      var j :| 0 <= j < i && taken[..i][j] == (proto, m);
      assert taken[j] == (proto, m);
    }
  }

  /** A number nobody asked for was handed out exactly when the open ports outnumber the free numbers below it. */
  lemma HandedOut(ports: seq<Value>, used: set<Pair>, taken: seq<Pair>, proto: string, limit: nat)
    requires AllGiven(ports, used, taken)
    requires NODE_PORT_MIN <= limit && (proto, limit) !in used && (proto, limit) !in ShownPairs(ports[..|taken|])
    ensures limit in Allotted(ports, taken, proto)
       <==> OpenBefore(ports, |taken|, proto) > |FreeBelow(ports, used, |taken|, proto, limit)|
  {
    hide ProtocolOf, ExplicitNodePort, GivenPair, ShownPairs, Allotted;
    var allotted := Allotted(ports, taken, proto);
    var free := FreeBelow(ports, used, |taken|, proto, limit);
    AllottedCount(ports, used, taken, proto);
    forall n: nat { TakenIs(ports, used, taken, proto, n); }
    if limit in allotted {
      forall m | m in free ensures m in allotted {
        AllottedIsLow(ports, used, taken, proto, limit, m);
      }
      Subset(free, allotted - {limit});
    } else {
      forall n | n in allotted ensures n in free {
        if limit < n {
          AllottedIsLow(ports, used, taken, proto, n, limit);
        }
      }
      Subset(allotted, free);
    }
  }

  /** Nothing is left exactly when the open ports have used up the free numbers. */
  lemma UsedUp(ports: seq<Value>, used: set<Pair>, taken: seq<Pair>, proto: string)
    requires AllGiven(ports, used, taken)
    ensures AllocFree(proto, used + Elements(taken), NODE_PORT_MIN).Some?
       <==> OpenBefore(ports, |taken|, proto) < |FreeBelow(ports, used, |taken|, proto, NODE_PORT_MAX + 1)|
  {
    hide ProtocolOf, ExplicitNodePort, GivenPair, ShownPairs, Allotted;
    var allotted := Allotted(ports, taken, proto);
    var free := FreeBelow(ports, used, |taken|, proto, NODE_PORT_MAX + 1);
    AllottedCount(ports, used, taken, proto);
    forall n: nat { TakenIs(ports, used, taken, proto, n); }
    assert allotted <= free;
    var left := AllocFree(proto, used + Elements(taken), NODE_PORT_MIN);
    if left.Some? {
      assert left.value in free && left.value !in allotted;
      Subset(allotted, free - {left.value});
    } else {
      forall n | n in free ensures n in allotted { }
      Subset(free, allotted);
    }
  }

  lemma {:induction false} Subset(a: set<nat>, b: set<nat>)
    requires a <= b
    ensures |a| <= |b|
  {
    if x :| x in a {
      Subset(a - {x}, b - {x});
    }
  }

  /** After a prefix that passed, the next port passes exactly when its turn succeeds. */
  lemma TurnPasses(ports: seq<Value>, used: set<Pair>, i: nat)
    requires i < |ports| && Progress(ports[..i], used).1.None?
    ensures Turn(ports[i], used, Progress(ports[..i], used).0).Ok? <==> Passes(ports, used, i)
  {
    hide ProtocolOf, ExplicitNodePort, Progress, ShownPairs, FreeBelow, OpenBefore, AllocFree;
    var front := ports[..i];
    var taken := Progress(front, used).0;
    ProgressGives(front, used);
    forall j | 0 <= j < |taken| ensures GivenPair(ports, used, taken, j) {
      GivenStays(front, ports, used, taken, taken, j);
    }
    var proto := ProtocolOf(ports[i]);
    match ExplicitNodePort(ports[i]) {
      case Malformed =>
      case Unset => UsedUp(ports, used, taken, proto);
      case Asked(n) =>
        if InNodePortRange(n) && (proto, n) !in used {
          TakenIs(ports, used, taken, proto, n);
          if (proto, n) !in ShownPairs(front) {
            HandedOut(ports, used, taken, proto, n);
          }
        }
    }
  }

  /**
   * Which lists of ports the allocation lets through, for every list: exactly
   * those all of whose ports pass. The order matters: a number asked for after
   * open ports is refused if one of them was handed it.
   */
  lemma {:induction false} PassesExactly(ports: seq<Value>, used: set<Pair>)
    ensures Progress(ports, used).1.None? <==> forall i :: 0 <= i < |ports| ==> Passes(ports, used, i)
  {
    hide Passes, Turn;
    if ports != [] {
      var n := |ports| - 1;
      var front := ports[..n];
      PassesExactly(front, used);
      forall i | 0 <= i < n ensures Passes(ports, used, i) <==> Passes(front, used, i) {
        PassesOfPrefix(ports, used, i, n);
      }
      if Progress(front, used).1.None? {
        TurnPasses(ports, used, n);
      }
    }
  }

  lemma PassesOfPrefix(ports: seq<Value>, used: set<Pair>, i: nat, n: nat)
    requires i < n <= |ports|
    ensures Passes(ports, used, i) <==> Passes(ports[..n], used, i)
  {
    hide ProtocolOf, ExplicitNodePort, ShownPairs, OpenBefore;
    assert ports[..n][..i] == ports[..i];
    OpenOfPrefix(ports, ports[..n], i, ProtocolOf(ports[i]));
  }

  lemma {:induction false} OpenOfPrefix(ports: seq<Value>, front: seq<Value>, i: nat, proto: string)
    requires front <= ports && i <= |front|
    ensures OpenBefore(ports, i, proto) == OpenBefore(front, i, proto)
  {
    hide ProtocolOf, ExplicitNodePort;
    if i > 0 {
      OpenOfPrefix(ports, front, i - 1, proto);
    }
  }

  // --- Exactly what each port gets --------------------------------------------------------------------------

  /**
   * What the caller can say of port `i` of a list that passes: the number it
   * gets is the one it asks for, or else the free one with as many free numbers
   * below it as there are open ports before.
   */
  predicate Gets(ports: seq<Value>, used: set<Pair>, i: nat, n: nat)
    requires i < |ports|
  {
    var proto := ProtocolOf(ports[i]);
    match ExplicitNodePort(ports[i])
    case Malformed => false
    case Asked(m) => n == m
    case Unset =>
      && InNodePortRange(n) && (proto, n) !in used && (proto, n) !in ShownPairs(ports[..i])
      && OpenBefore(ports, i, proto) == |FreeBelow(ports, used, i, proto, n)|
  }

  /** Exactly which number each port of a list that passes gets. */
  lemma GetsExactly(ports: seq<Value>, used: set<Pair>, i: nat, n: nat)
    requires Progress(ports, used).1.None? && i < |ports|
    ensures Progress(ports, used).0[i] == (ProtocolOf(ports[i]), n) <==> Gets(ports, used, i, n)
  {
    hide ProtocolOf, ExplicitNodePort, Progress, ShownPairs, FreeBelow, OpenBefore;
    ProgressGives(ports, used);
    var taken := Progress(ports, used).0;
    assert GivenPair(ports, used, taken, i);
    if ExplicitNodePort(ports[i]).Unset? {
      var proto := ProtocolOf(ports[i]);
      PrefixIsGiven(ports, used, taken, i);
      PrefixIsGiven(ports, used, taken, i + 1);
      assert taken[..i + 1][..i] == taken[..i] && taken[..i + 1] == taken[..i] + [taken[i]];
      if InNodePortRange(n) && (proto, n) !in used && (proto, n) !in ShownPairs(ports[..i]) {
        OpenSnoc(ports, used, i, n);
        HandedOut(ports, used, taken[..i], proto, n);
        HandedOut(ports, used, taken[..i + 1], proto, n);
        AllottedSnoc(ports, taken[..i], taken[i], proto);
        LastIsNew(ports, used, taken[..i + 1], proto);
      } else if taken[i] == (proto, n) {
        TakenIs(ports, used, taken[..i], proto, n);
      }
    }
  }

  /** An open port counts for those after it, and shows nothing. */
  lemma OpenSnoc(ports: seq<Value>, used: set<Pair>, i: nat, n: nat)
    requires i < |ports| && ExplicitNodePort(ports[i]).Unset?
    ensures
      var proto := ProtocolOf(ports[i]);
      && ShownPairs(ports[..i + 1]) == ShownPairs(ports[..i])
      && FreeBelow(ports, used, i + 1, proto, n) == FreeBelow(ports, used, i, proto, n)
      && OpenBefore(ports, i + 1, proto) == OpenBefore(ports, i, proto) + 1
  {
    hide ProtocolOf, ExplicitNodePort;
    assert ports[..i + 1] == ports[..i] + [ports[i]];
    ShownSnoc(ports[..i], ports[i]);
  }

  lemma ShownSnoc(ports: seq<Value>, port: Value)
    requires !ExplicitNodePort(port).Asked?
    ensures ShownPairs(ports + [port]) == ShownPairs(ports)
  {
    hide ProtocolOf, ExplicitNodePort;
    var all := ports + [port];
    assert forall i :: 0 <= i < |ports| ==> all[i] == ports[i];
    assert ShownPairs(ports) <= ShownPairs(all);
  }

  /** One of the object ports gets `p`. */
  ghost predicate ComesToShow(ports: seq<Value>, used: set<Pair>, p: Pair) {
    exists i :: 0 <= i < |ports| && ports[i].Object? && ProtocolOf(ports[i]) == p.0 && Gets(ports, used, i, p.1)
  }

  /** Exactly which pairs a Service shows after a successful defaulting. */
  lemma ShowsExactly(body: Value, used: set<Pair>, p: Pair)
    requires IsNodePortType(body) && DefaultedService(body, used).error.None?
    ensures p in NodePortsOf(DefaultedService(body, used).body) <==> ComesToShow(SpecPorts(body), used, p)
  {
    hide IsNodePortType, SpecPorts, ExplicitNodePort, ProtocolOf, Progress, DefaultedService, Gets, ShownPairs,
      FilledAll;
    DefaultedShape(body, used);
    var ports := SpecPorts(body);
    var taken := Progress(ports, used).0;
    ShownAfter(ports, used);
    forall i: nat | i < |ports| ensures taken[i] == (ProtocolOf(ports[i]), p.1) <==> Gets(ports, used, i, p.1) {
      GetsExactly(ports, used, i, p.1);
    }
    ProgressGives(ports, used);
    forall i: nat | i < |ports| ensures taken[i].0 == ProtocolOf(ports[i]) {
      assert GivenPair(ports, used, taken, i);
    }
  }

  /** Why the first port that does not pass is refused, and with it the whole list. */
  lemma RefusedFor(ports: seq<Value>, used: set<Pair>, i: nat)
    requires i < |ports| && !Passes(ports, used, i) && forall j :: 0 <= j < i ==> Passes(ports, used, j)
    ensures
      var proto := ProtocolOf(ports[i]);
      Progress(ports, used).1 == Some(
        if ExplicitNodePort(ports[i]).Malformed? then NotAnInteger
        else if ExplicitNodePort(ports[i]).Unset? then Exhausted
        else
          var n := ExplicitNodePort(ports[i]).n;
          if !InNodePortRange(n) then OutOfRange(n)
          else if (proto, n) in used then AlreadyAllocated((proto, n)) else Duplicate((proto, n)))
  {
    hide ProtocolOf, ExplicitNodePort, ShownPairs, FreeBelow, OpenBefore, AllocFree, Progress, Passes;
    var front := ports[..i];
    forall j | 0 <= j < i ensures Passes(front, used, j) { PassesOfPrefix(ports, used, j, i); }
    PassesExactly(front, used);
    TurnPasses(ports, used, i);
    ProgressSnoc(ports, i, used);
    ProgressFails(ports, i, used);
    TurnRefuses(ports, used, i);
  }

  lemma TurnRefuses(ports: seq<Value>, used: set<Pair>, i: nat)
    requires i < |ports| && Progress(ports[..i], used).1.None?
    requires Turn(ports[i], used, Progress(ports[..i], used).0).Err?
    ensures
      var proto := ProtocolOf(ports[i]);
      Turn(ports[i], used, Progress(ports[..i], used).0).error ==
        if ExplicitNodePort(ports[i]).Malformed? then NotAnInteger
        else if ExplicitNodePort(ports[i]).Unset? then Exhausted
        else
          var n := ExplicitNodePort(ports[i]).n;
          if !InNodePortRange(n) then OutOfRange(n)
          else if (proto, n) in used then AlreadyAllocated((proto, n)) else Duplicate((proto, n))
  {
    hide ProtocolOf, ExplicitNodePort, Progress, ShownPairs, AllocFree;
    ProgressGives(ports[..i], used);
    var proto := ProtocolOf(ports[i]);
    if ExplicitNodePort(ports[i]).Asked? {
      TakenIs(ports[..i], used, Progress(ports[..i], used).0, proto, ExplicitNodePort(ports[i]).n);
    }
  }

  function OpenPort(): Value {
    Object(map["port" := Integer(80)])
  }

  function AskedPort(n: nat): Value {
    Object(map["port" := Integer(81), "nodePort" := Integer(n)])
  }

  /** An open port followed by a request for 30000 is refused, the other way round it is not. */
  lemma OrderDecides()
    ensures Progress([OpenPort(), AskedPort(30000)], {}).1 == Some(Duplicate(("TCP", 30000)))
    ensures Progress([AskedPort(30000), OpenPort()], {}).1 == None
  {
    TwoTurns(OpenPort(), AskedPort(30000), {});
    TwoTurns(AskedPort(30000), OpenPort(), {});
    assert [("TCP", 30000)][0] == ("TCP", 30000);
    assert Elements([("TCP", 30000)]) == {("TCP", 30000)};
    assert ("TCP", 30001) !in {("TCP", 30000)};
  }

  lemma TwoTurns(a: Value, b: Value, used: set<Pair>)
    ensures Turn(a, used, []).Ok? ==>
      var first := Turn(a, used, []).value;
      var second := Turn(b, used, [first]);
      Progress([a, b], used) == if second.Ok? then ([first, second.value], None) else ([first], Some(second.error))
  {
    hide Turn;
    var both := [a, b];
    assert both[..1] == [a] && [a][..0] == [];
    assert Progress([], used) == ([], None);
    if Turn(a, used, []).Ok? {
      var first := Turn(a, used, []).value;
      assert [] + [first] == [first];
      assert Progress([a], used) == ([first], None);
      ProgressSnoc(both, 1, used);
      assert both[..2] == both;
      var second := Turn(b, used, [first]);
      assert second.Ok? ==> [first] + [second.value] == [first, second.value];
    }
  }

  // --- Healing -----------------------------------------------------------------------------------------------

  lemma DroppedShape(v: Value, foreign: set<Pair>)
    ensures IsNodePortType(Dropped(v, foreign)) == IsNodePortType(v)
    ensures SpecPorts(Dropped(v, foreign)) == DroppedAll(SpecPorts(v), foreign)
  {
  }

  /** A dropped port is open; any other is as it was. */
  lemma DroppedIs(port: Value, foreign: set<Pair>)
    ensures Collides(port, foreign) ==> ExplicitNodePort(DroppedPort(port, foreign)).Unset?
    ensures !Collides(port, foreign) ==> DroppedPort(port, foreign) == port
    ensures ProtocolOf(DroppedPort(port, foreign)) == ProtocolOf(port)
  {
  }

  /**
   * A heal that swaps leaves the Service disjoint from the listing it used,
   * keeps every port whose number did not collide, and gives each colliding
   * one another number.
   */
  lemma HealedIsDisjoint(v: Value, foreign: set<Pair>)
    requires IsNodePortType(v) && Healed(v, foreign).error.None?
    ensures NodePortsOf(Healed(v, foreign).body) !! foreign
    ensures
      var before, after := SpecPorts(v), SpecPorts(Healed(v, foreign).body);
      && |after| == |before|
      && forall i :: 0 <= i < |before| ==>
           && (ExplicitNodePort(before[i]).Asked? && !Collides(before[i], foreign) ==> after[i] == before[i])
           && (Collides(before[i], foreign) ==> ExplicitNodePort(after[i]).Asked? && !Collides(after[i], foreign))
  {
    hide IsNodePortType, SpecPorts, ExplicitNodePort, ProtocolOf, Progress, DefaultedService, Dropped, ShownPairs;
    DroppedShape(v, foreign);
    var d := Dropped(v, foreign);
    DefaultedIsSound(d, foreign);
    var before, open := SpecPorts(v), SpecPorts(d);
    var after := SpecPorts(Healed(v, foreign).body);
    var taken := Progress(open, foreign).0;
    forall i | 0 <= i < |before|
      ensures ExplicitNodePort(before[i]).Asked? && !Collides(before[i], foreign) ==> after[i] == before[i]
      ensures Collides(before[i], foreign) ==> ExplicitNodePort(after[i]).Asked? && !Collides(after[i], foreign)
    {
      DroppedIs(before[i], foreign);
      assert GivenPair(open, foreign, taken, i);
      if Collides(before[i], foreign) {
        NonObjectShows(before[i]);
        FilledShows(open[i], taken[i]);
      }
    }
  }

  /** A heal can not help exactly when its dropped list does not pass. */
  lemma HealsExactly(v: Value, foreign: set<Pair>)
    requires IsNodePortType(v)
    ensures Healed(v, foreign).error.None?
       <==> var open := DroppedAll(SpecPorts(v), foreign); forall i :: 0 <= i < |open| ==> Passes(open, foreign, i)
  {
    hide IsNodePortType, SpecPorts, Progress, DefaultedService, Dropped, Passes, DroppedAll;
    DroppedShape(v, foreign);
    DefaultedShape(Dropped(v, foreign), foreign);
    PassesExactly(SpecPorts(Dropped(v, foreign)), foreign);
  }

  /** A port that was numbered `n` knowing of nothing in use, with its number dropped if it is in `foreign`. */
  function Reopened(port: Value, n: nat, foreign: set<Pair>): Value {
    if !port.Object? then port else
    if (ProtocolOf(port), n) in foreign then Object(port.fields - {"nodePort"}) else Filled(port, (ProtocolOf(port), n))
  }

  /** `open` is what the heal makes of a list that was numbered knowing of nothing in use. */
  ghost predicate ReopenedAs(ports: seq<Value>, foreign: set<Pair>, open: seq<Value>) {
    |open| == |ports| && forall i :: 0 <= i < |ports| ==> ReopenedAt(ports, foreign, i, open[i])
  }

  ghost predicate ReopenedAt(ports: seq<Value>, foreign: set<Pair>, i: nat, port: Value)
    requires i < |ports|
  {
    exists n: nat :: Gets(ports, {}, i, n) && port == Reopened(ports[i], n, foreign)
  }

  /** What a caller can count out beforehand: so reopened, the list passes. */
  ghost predicate CanBeHealed(ports: seq<Value>, foreign: set<Pair>) {
    exists open :: ReopenedAs(ports, foreign, open) && forall i :: 0 <= i < |open| ==> Passes(open, foreign, i)
  }

  /** Exactly which Services are healed that were numbered knowing of nothing in use. */
  lemma HealsBlindExactly(body: Value, foreign: set<Pair>)
    requires IsNodePortType(body) && DefaultedService(body, {}).error.None?
    ensures Healed(DefaultedService(body, {}).body, foreign).error.None? <==> CanBeHealed(SpecPorts(body), foreign)
  {
    hide IsNodePortType, SpecPorts, ExplicitNodePort, Progress, DefaultedService, Passes, ReopenedAs, Healed,
      DroppedAll, FilledAll;
    DefaultedShape(body, {});
    var ports := SpecPorts(body);
    var taken := Progress(ports, {}).0;
    var open := DroppedAll(FilledAll(ports, taken), foreign);
    HealsExactly(DefaultedService(body, {}).body, foreign);
    ReopenedIs(ports, foreign, open);
    forall other | ReopenedAs(ports, foreign, other) ensures other == open {
      ReopenedIs(ports, foreign, other);
    }
  }

  lemma ReopenedIs(ports: seq<Value>, foreign: set<Pair>, open: seq<Value>)
    requires Progress(ports, {}).1.None?
    ensures ReopenedAs(ports, foreign, open) <==> open == DroppedAll(FilledAll(ports, Progress(ports, {}).0), foreign)
  {
    hide ExplicitNodePort, ProtocolOf, Progress, Gets, Reopened, DroppedPort, Filled;
    var taken := Progress(ports, {}).0;
    var dropped := DroppedAll(FilledAll(ports, taken), foreign);
    ProgressGives(ports, {});
    forall i: nat | i < |ports|
      ensures Gets(ports, {}, i, taken[i].1) && dropped[i] == Reopened(ports[i], taken[i].1, foreign)
      ensures forall n: nat :: Gets(ports, {}, i, n) ==> n == taken[i].1
    {
      assert GivenPair(ports, {}, taken, i);
      forall n: nat ensures Gets(ports, {}, i, n) <==> n == taken[i].1 {
        GetsExactly(ports, {}, i, n);
      }
      ReopenedPort(ports[i], taken[i], foreign);
    }
    if ReopenedAs(ports, foreign, open) {
      forall i | 0 <= i < |ports| ensures open[i] == dropped[i] {
        assert ReopenedAt(ports, foreign, i, open[i]);
      }
      assert open == dropped;
    }
    assert ReopenedAs(ports, foreign, dropped);
  }

  lemma ReopenedPort(port: Value, pair: Pair, foreign: set<Pair>)
    requires pair.0 == ProtocolOf(port) && pair.1 < 0x10000 && ExplicitNodePort(port) in [Unset, Asked(pair.1)]
    ensures DroppedPort(Filled(port, pair), foreign) == Reopened(port, pair.1, foreign)
  {
    NonObjectShows(port);
    if port.Object? {
      hide ExplicitNodePort;
      FilledShows(port, pair);
      assert port.fields["nodePort" := Integer(pair.1)] - {"nodePort"} == port.fields - {"nodePort"};
    }
  }

  /**
   * For instance a Service holding 30000 and 30001 whose 30000 collides is
   * never healed: the lowest free number is its own 30001.
   */
  lemma HealStuck()
    ensures
      var ports := [AskedPort(30000), AskedPort(30001)];
      var foreign := {("TCP", 30000)};
      Progress(DroppedAll(ports, foreign), foreign).1 == Some(Duplicate(("TCP", 30001)))
  {
    var foreign: set<Pair> := {("TCP", 30000)};
    var open := DroppedPort(AskedPort(30000), foreign);
    assert DroppedAll([AskedPort(30000), AskedPort(30001)], foreign) == [open, AskedPort(30001)];
    TwoTurns(open, AskedPort(30001), foreign);
    assert AllocFree("TCP", foreign + Elements([]), NODE_PORT_MIN) == Some(30001);
    assert [("TCP", 30001)][0] == ("TCP", 30001);
  }
}
