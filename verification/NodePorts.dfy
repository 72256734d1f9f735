// NodePort allocation: defaulting a Service in place at create time, and what a
// heal of a collision writes.
module NodePorts {
  import opened Options
  import opened Json
  import opened Storage

  const NODE_PORT_MIN: nat := 30000
  const NODE_PORT_MAX: nat := 32767

  /** A protocol and a port number. */
  type Pair = (string, nat)

  datatype ServiceError =
    | NotAnInteger
    | OutOfRange(n: nat)
    | Exhausted
    | Duplicate(pair: Pair)
    | AlreadyAllocated(pair: Pair)

  datatype Explicit = Unset | Malformed | Asked(n: nat)

  // --- Reading a Service ---------------------------------------------------------------------

  predicate IsNodePortType(v: Value) {
    StrAt(v, ["spec", "type"]) in [Some("NodePort"), Some("LoadBalancer")]
  }

  function ProtocolOf(port: Value): string {
    match port.Get("protocol")
    case None => "TCP"
    case Some(p) => if p.String? then p.s else "TCP"
  }

  function ExplicitNodePort(port: Value): Explicit {
    match port.Get("nodePort")
    case None => Unset
    case Some(v) =>
      if v.Null? then Unset else
      if v.AsU64().Some? && v.AsU64().value < 0x10000 then Explicit.Asked(v.AsU64().value) else Malformed
  }

  function SpecPorts(v: Value): seq<Value> {
    match v.Pointer(["spec", "ports"])
    case None => []
    case Some(ports) => if ports.Array? then ports.items else []
  }

  /** The pairs a list of ports shows. */
  function ShownPairs(ports: seq<Value>): set<Pair> {
    set i | 0 <= i < |ports| && ExplicitNodePort(ports[i]).Asked?
      :: (ProtocolOf(ports[i]), ExplicitNodePort(ports[i]).n)
  }

  function NodePortsOf(v: Value): set<Pair> {
    if IsNodePortType(v) then ShownPairs(SpecPorts(v)) else {}
  }

  function UsedNodePorts(services: seq<Value>): set<Pair> {
    if services == [] then {} else UsedNodePorts(services[..|services| - 1]) + NodePortsOf(services[|services| - 1])
  }

  /** Lowest free number for `proto` from `n` up. */
  function AllocFree(proto: string, used: set<Pair>, n: nat): (r: Option<nat>)
    requires NODE_PORT_MIN <= n <= NODE_PORT_MAX + 1
    ensures r.Some? ==> n <= r.value <= NODE_PORT_MAX && (proto, r.value) !in used
    ensures forall m :: n <= m < (if r.Some? then r.value else NODE_PORT_MAX + 1) ==> (proto, m) in used
    decreases NODE_PORT_MAX + 1 - n
  {
    if n > NODE_PORT_MAX then None else
    if (proto, n) !in used then Some(n) else AllocFree(proto, used, n + 1)
  }

  // --- Allocation, port by port -----------------------------------------------------------------

  function Elements(pairs: seq<Pair>): set<Pair> {
    set i | 0 <= i < |pairs| :: pairs[i]
  }

  /** The pair one port gets when `taken` are the pairs its predecessors got. */
  function Turn(port: Value, used: set<Pair>, taken: seq<Pair>): Result<Pair, ServiceError> {
    var proto := ProtocolOf(port);
    match ExplicitNodePort(port)
    case Malformed => Err(NotAnInteger)
    case Asked(n) =>
      if !(NODE_PORT_MIN <= n <= NODE_PORT_MAX) then Err(OutOfRange(n)) else
      if (proto, n) in Elements(taken) then Err(Duplicate((proto, n))) else
      if (proto, n) in used then Err(AlreadyAllocated((proto, n))) else Ok((proto, n))
    case Unset =>
      match AllocFree(proto, used + Elements(taken), NODE_PORT_MIN)
      case None => Err(Exhausted)
      case Some(n) => Ok((proto, n))
  }

  /** The pairs taken before the first error, and that error. */
  function Progress(ports: seq<Value>, used: set<Pair>): (r: (seq<Pair>, Option<ServiceError>))
    ensures |r.0| <= |ports| && (r.1.None? ==> |r.0| == |ports|)
  {
    if ports == [] then ([], None) else
      var (taken, error) := Progress(ports[..|ports| - 1], used);
      if error.Some? then (taken, error) else
        match Turn(ports[|ports| - 1], used, taken)
        case Err(e) => (taken, Some(e))
        case Ok(pair) => (taken + [pair], None)
  }

  /** A port that got its pair: an unset number is filled in, anything else stays. */
  function Filled(port: Value, pair: Pair): Value {
    if ExplicitNodePort(port).Unset? && port.Object? then Object(port.fields["nodePort" := Integer(pair.1)]) else port
  }

  function FilledAll(ports: seq<Value>, taken: seq<Pair>): seq<Value> {
    seq(|ports|, i requires 0 <= i < |ports| => if i < |taken| then Filled(ports[i], taken[i]) else ports[i])
  }

  /** What defaulting leaves behind: the body, the pairs in use, and the error if there is one. */
  datatype Defaulted = Defaulted(body: Value, used: set<Pair>, error: Option<ServiceError>)

  /** `spec.type` as it is after defaulting. */
  function TypeOf(spec: map<string, Value>): string {
    match Lookup(spec, "type")
    case None => ""
    case Some(t) => if t.String? then t.s else ""
  }

  function TypedSpec(spec: map<string, Value>): map<string, Value> {
    if TypeOf(spec) == "" then spec["type" := String("ClusterIP")] else spec
  }

  function DefaultedService(body: Value, used: set<Pair>): Defaulted {
    if !body.Object? then Defaulted(body, used, None) else
      var rawSpec := if "spec" in body.fields then body.fields["spec"] else Object(map[]);
      if !rawSpec.Object? then Defaulted(body, used, None) else
        var spec := TypedSpec(rawSpec.fields);
        if TypeOf(spec) !in ["NodePort", "LoadBalancer"] || "ports" !in spec || !spec["ports"].Array? then
          Defaulted(Object(body.fields["spec" := Object(spec)]), used, None)
        else
          var ports := spec["ports"].items;
          var (taken, error) := Progress(ports, used);
          var filled := Object(spec["ports" := Array(FilledAll(ports, taken))]);
          Defaulted(Object(body.fields["spec" := filled]), used + Elements(taken), error)
  }

  /** `default_service`: the body and `used` as they are left, whether or not it fails. */
  method DefaultService(body: Value, used: set<Pair>)
    returns (body': Value, used': set<Pair>, error: Option<ServiceError>)
    ensures Defaulted(body', used', error) == DefaultedService(body, used)
  {
    hide Progress, FilledAll, Elements;
    body', used', error := body, used, None;
    if !body.Object? { return; }
    var spec := if "spec" in body.fields then body.fields["spec"] else Object(map[]);
    if !spec.Object? { return; }
    var members := spec.fields;
    var ty := TypeOf(members);
    if ty == "" {
      ty := "ClusterIP";
      members := members["type" := String("ClusterIP")];
    }
    body' := Object(body.fields["spec" := Object(members)]);
    if ty != "NodePort" && ty != "LoadBalancer" { return; }
    if "ports" !in members || !members["ports"].Array? { return; }
    var ports;
    ports, used', error := DefaultPorts(members["ports"].items, used);
    body' := Object(body.fields["spec" := Object(members["ports" := Array(ports)])]);
  }

  /** The loop over `spec.ports`, editing the list in place. */
  method DefaultPorts(ports: seq<Value>, used: set<Pair>)
    returns (ports': seq<Value>, used': set<Pair>, error: Option<ServiceError>)
    ensures
      var (taken, e) := Progress(ports, used);
      ports' == FilledAll(ports, taken) && used' == used + Elements(taken) && error == e
  {
    hide ExplicitNodePort, ProtocolOf;
    ports', used', error := ports, used, None;
    var ours: set<Pair> := {};
    ghost var taken: seq<Pair> := [];
    for i := 0 to |ports|
      invariant Progress(ports[..i], used) == (taken, None)
      invariant ports' == FilledAll(ports, taken)
      invariant ours == Elements(taken) && used' == used + ours
    {
      var port := ports'[i];
      assert port == ports[i];
      ProgressSnoc(ports, i, used);
      var proto := ProtocolOf(port);
      var explicit := ExplicitNodePort(port);
      if explicit.Malformed? {
        ProgressFails(ports, i, used);
        return ports', used', Some(NotAnInteger);
      }
      if explicit.Asked? && !(NODE_PORT_MIN <= explicit.n <= NODE_PORT_MAX) {
        ProgressFails(ports, i, used);
        return ports', used', Some(OutOfRange(explicit.n));
      }
      var n := if explicit.Asked? then Some(explicit.n) else AllocFree(proto, used', NODE_PORT_MIN);
      if n.None? {
        ProgressFails(ports, i, used);
        return ports', used', Some(Exhausted);
      }
      var pair := (proto, n.value);
      if pair in ours {
        ProgressFails(ports, i, used);
        return ports', used', Some(Duplicate(pair));
      }
      if pair in used' {
        ProgressFails(ports, i, used);
        return ports', used', Some(AlreadyAllocated(pair));
      }
      ElementsSnoc(taken, pair);
      ours := ours + {pair};
      used' := used' + {pair};
      if explicit.Unset? && port.Object? {
        ports' := ports'[i := Object(port.fields["nodePort" := Integer(pair.1)])];
      }
      ghost var before := taken;
      taken := taken + [pair];
      FilledSnoc(ports, before, pair);
    }
    assert ports[..|ports|] == ports;
  }

  lemma ProgressSnoc(ports: seq<Value>, i: nat, used: set<Pair>)
    requires i < |ports| && Progress(ports[..i], used).1.None?
    ensures Progress(ports[..i + 1], used) ==
      var taken := Progress(ports[..i], used).0;
      match Turn(ports[i], used, taken)
      case Err(e) => (taken, Some(e))
      case Ok(pair) => (taken + [pair], None)
  {
    assert ports[..i + 1][..i] == ports[..i];
  }

  /** After an error nothing more happens. */
  lemma {:induction false} ProgressFails(ports: seq<Value>, i: nat, used: set<Pair>)
    requires i < |ports| && Progress(ports[..i + 1], used).1.Some?
    ensures Progress(ports, used) == Progress(ports[..i + 1], used)
    decreases |ports|
  {
    if i + 1 == |ports| {
      assert ports[..i + 1] == ports;
    } else {
      var front := ports[..|ports| - 1];
      assert front[..i + 1] == ports[..i + 1];
      ProgressFails(front, i, used);
    }
  }

  lemma ElementsSnoc(taken: seq<Pair>, pair: Pair)
    ensures Elements(taken + [pair]) == Elements(taken) + {pair}
  {
    var all := taken + [pair];
    assert all[|taken|] == pair;
    forall p | p in Elements(taken) ensures p in Elements(all) {
      var i :| 0 <= i < |taken| && taken[i] == p;
      assert all[i] == p;
    }
  }

  lemma FilledSnoc(ports: seq<Value>, taken: seq<Pair>, pair: Pair)
    requires |taken| < |ports|
    ensures FilledAll(ports, taken + [pair]) == FilledAll(ports, taken)[|taken| := Filled(ports[|taken|], pair)]
  {
  }

  // --- Healing ------------------------------------------------------------------------------------

  /** What the other Services of a listing hold. */
  function Foreign(listing: seq<Entry>, path: string): set<Pair> {
    if listing == [] then {} else
      var last := listing[|listing| - 1];
      Foreign(listing[..|listing| - 1], path) + if last.key != path then NodePortsOf(last.value) else {}
  }

  predicate Collides(port: Value, foreign: set<Pair>) {
    var explicit := ExplicitNodePort(port);
    explicit.Asked? && (ProtocolOf(port), explicit.n) in foreign
  }

  function DroppedPort(port: Value, foreign: set<Pair>): Value {
    if Collides(port, foreign) && port.Object? then Object(port.fields - {"nodePort"}) else port
  }

  function DroppedAll(ports: seq<Value>, foreign: set<Pair>): seq<Value> {
    seq(|ports|, i requires 0 <= i < |ports| => DroppedPort(ports[i], foreign))
  }

  /** The Service with its colliding numbers dropped. */
  function Dropped(v: Value, foreign: set<Pair>): Value {
    if v.Object? && "spec" in v.fields && v.fields["spec"].Object?
       && "ports" in v.fields["spec"].fields && v.fields["spec"].fields["ports"].Array?
    then
      var spec := v.fields["spec"].fields;
      Object(v.fields["spec" := Object(spec["ports" := Array(DroppedAll(spec["ports"].items, foreign))])])
    else v
  }

  /** What the loop tries to write: fresh numbers for the dropped ones, avoiding `foreign`. */
  function Healed(v: Value, foreign: set<Pair>): Defaulted {
    DefaultedService(Dropped(v, foreign), foreign)
  }

  method DropColliding(ports: seq<Value>, foreign: set<Pair>) returns (ports': seq<Value>)
    ensures ports' == DroppedAll(ports, foreign)
  {
    hide ExplicitNodePort, ProtocolOf;
    ports' := ports;
    for i := 0 to |ports|
      invariant |ports'| == |ports|
      invariant forall j :: 0 <= j < |ports| ==> ports'[j] == if j < i then DroppedPort(ports[j], foreign) else ports[j]
    {
      var explicit := ExplicitNodePort(ports'[i]);
      if explicit.Asked? && (ProtocolOf(ports'[i]), explicit.n) in foreign {
        if ports'[i].Object? {
          ports' := ports'[i := Object(ports'[i].fields - {"nodePort"})];
        }
      }
    }
  }

  method DropFrom(v: Value, foreign: set<Pair>) returns (next: Value)
    ensures next == Dropped(v, foreign)
  {
    next := v;
    if v.Object? && "spec" in v.fields && v.fields["spec"].Object?
       && "ports" in v.fields["spec"].fields && v.fields["spec"].fields["ports"].Array?
    {
      var spec := v.fields["spec"].fields;
      var ports := DropColliding(spec["ports"].items, foreign);
      next := Object(v.fields["spec" := Object(spec["ports" := Array(ports)])]);
    }
  }
}
