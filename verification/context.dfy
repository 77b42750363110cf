/** The per-node context: link status, local node id, the (optional) coordinate
    system holding the local position, and the position-change observers.
    Every operation is a pure step: it returns the new context, and
    `SetLocalPosition` also returns the observer calls it makes, in order. */
module NodeContext {
  import opened Doubles
  import opened Coordinates

  datatype Option<T> = None | Some(value: T)

  datatype LinkStatus = Offline | Connecting | Online

  /** The local node id; drawn at random by the node, so a parameter here. */
  datatype NodeId = NodeId(value: nat)

  /** A registered position-change observer, identified only by a handle. */
  datatype Observer = Observer(handle: nat)

  /** One invocation of an observer with the position it was given. */
  datatype Call = Call(observer: Observer, position: Coordinate)

  datatype Context = Context(
    linkStatus: LinkStatus,
    localNid: NodeId,
    coordSystem: Option<CoordSystem>,
    observers: seq<Observer>)

  /** The result of a position update: the new context and the observer
      calls made before it returned. */
  datatype Step = Step(context: Context, calls: seq<Call>)

  /** The observers invoked by a trace, in invocation order. */
  function Invoked(calls: seq<Call>): (obs: seq<Observer>)
    ensures |obs| == |calls|
    ensures forall i :: 0 <= i < |calls| ==> obs[i] == calls[i].observer
  {
    seq(|calls|, i requires 0 <= i < |calls| => calls[i].observer)
  }

  /** Every call in a trace hands over position `pos`. */
  predicate AllWith(calls: seq<Call>, pos: Coordinate)
  {
    forall i :: 0 <= i < |calls| ==> calls[i].position == pos
  }

  /** A fresh context: offline, with the given node id, no coordinate system
      yet and no observers. */
  function New(nid: NodeId): (c: Context)
    ensures c.linkStatus == Offline
    ensures c.localNid == nid
    ensures c.coordSystem.None?
    ensures c.observers == []
  {
    Context(Offline, nid, None, [])
  }

  /** Position operations are defined only once a coordinate system is set. */
  predicate HasCoordSystem(c: Context)
  {
    c.coordSystem.Some?
  }

  /** The stored local position. */
  function GetLocalPosition(c: Context): (p: Coordinate)
    requires HasCoordSystem(c)
    ensures p == c.coordSystem.value.local
  {
    c.coordSystem.value.local
  }

  /** Whether a local position has been set. */
  function HasLocalPosition(c: Context): (b: bool)
    requires HasCoordSystem(c)
    ensures b <==> c.coordSystem.value.local.enabled
  {
    GetLocalPosition(c).enabled
  }

  /** The position the context's coordinate system stores for input `pos`. */
  function Normalize(c: Context, pos: Coordinate): Coordinate
    requires HasCoordSystem(c)
  {
    c.coordSystem.value.normalize(pos)
  }

  /** Register an observer after all the existing ones. */
  function Hook(c: Context, f: Observer): (c': Context)
    ensures c'.observers == c.observers + [f]
    ensures c'.linkStatus == c.linkStatus
    ensures c'.localNid == c.localNid
    ensures c'.coordSystem == c.coordSystem
  {
    c.(observers := c.observers + [f])
  }

  /** Invoke every observer of `obs`, first to last, with `pos`. */
  function Notify(obs: seq<Observer>, pos: Coordinate): (calls: seq<Call>)
    ensures Invoked(calls) == obs
    ensures AllWith(calls, pos)
  {
    if obs == [] then []
    else [Call(obs[0], pos)] + Notify(obs[1..], pos)
  }

  /** Store `pos` through the coordinate system and, only when the stored x or
      y now compares unequal to the one before, call every observer in
      registration order with the stored position. */
  function SetLocalPosition(c: Context, pos: Coordinate): (s: Step)
    requires HasCoordSystem(c)
    ensures s.context.linkStatus == c.linkStatus
    ensures s.context.localNid == c.localNid
    ensures s.context.observers == c.observers
    ensures HasCoordSystem(s.context)
    ensures s.context.coordSystem.value.normalize == c.coordSystem.value.normalize
    ensures GetLocalPosition(s.context) == Normalize(c, pos)
    ensures Moved(GetLocalPosition(c), Normalize(c, pos)) ==>
              Invoked(s.calls) == c.observers && AllWith(s.calls, Normalize(c, pos))
    ensures !Moved(GetLocalPosition(c), Normalize(c, pos)) ==> s.calls == []
  {
    var cs := c.coordSystem.value;
    var prev := cs.local;
    var cs' := cs.Store(pos);
    var next := cs'.local;
    var c' := c.(coordSystem := Some(cs'));
    if !Eq(prev.x, next.x) || !Eq(prev.y, next.y) then
      Step(c', Notify(c.observers, next))
    else
      Step(c', [])
  }
}
