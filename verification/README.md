# Colonio node context: position bookkeeping

This project models the per-node `Context` of colonio, a peer-to-peer overlay
in which every node has a random node id, a link status and a local position
held by a coordinate system. The context's one rule with behaviour is
`set_local_position`. It hands the new position to the coordinate system and
reads the stored, converted position back. Only when that position's `x` or
`y` differs from the previous one does it call every registered
position-change observer, in registration order, with the stored position.

The model is functional. A `Context` is an immutable record: link status,
local node id, an optional coordinate system and the observer list. Each
operation returns a new record. `SetLocalPosition` also returns the trace of
observer calls it makes, so "exactly once", "in order" and "nobody" can be
stated directly.

- `Doubles` — the `double` components as finite reals, infinities or NaN,
  with IEEE 754 equality. NaN is unequal to itself, and this matters for the
  change test.
- `Coordinates` — `Coordinate` (`x`, `y`, `enabled`), the change test
  `Moved`, and `CoordSystem`. The coordinate system is an arbitrary total,
  deterministic conversion `normalize` plus the stored local position.
- `NodeContext` — `Context` and its operations `New`, `GetLocalPosition`,
  `HasLocalPosition`, `Hook` and `SetLocalPosition`. The source asserts that
  a coordinate system is present before every position operation. Here that
  is the precondition `HasCoordSystem`: calling without one is a caller's
  error, not a recoverable result.
- `ContextProperties` — lemmas that relate several operations: registration
  order, the queries after an update, notify-on-change and silence on repeat,
  and runs of updates.

`GetLocalPosition` and `HasLocalPosition` are functions of the context and
return no new context, so by construction they change no state.

The change test compares `double` values with `!=`. A NaN component is
unequal to itself, so repeating an update whose stored position has a NaN
component notifies all observers every time. The silence-on-repeat
properties therefore carry a "no NaN component" precondition, and
`NaNPositionNotifiesOnEveryRepeat` states the other case. Whether the
coordinate system can ever store NaN depends on its conversion, which is not
part of this model.

## Model

| member | source | states |
|---|---|---|
| NodeContext.New | src/core/context.cpp:25-27 | a new context is offline, carries the given node id, has no coordinate system yet and no observers |
| ContextProperties.NewThenHookAll | src/core/context.cpp:25-43 | a new context followed by any registrations is exactly: offline, the given node id, no coordinate system, the registered observers in registration order |
| NodeContext.Hook | src/core/context.cpp:41-43 | registering appends exactly one observer at the end; link status, node id and coordinate system (so the position) are unchanged |
| ContextProperties.HookAll | src/core/context.cpp:41-43 | registering a list of observers one by one leaves the old list followed by the new ones, in order, and changes nothing else |
| NodeContext.GetLocalPosition | src/core/context.cpp:29-33 | needs a coordinate system; returns the position the coordinate system stores; returns no new context |
| NodeContext.HasLocalPosition | src/core/context.cpp:35-39 | needs a coordinate system; returns the stored position's `enabled` flag; returns no new context |
| ContextProperties.QueriesReadStoredPosition | src/core/context.cpp:29-39 | after an update, the position query returns the coordinate system's conversion of the input, and the has-position query returns that conversion's `enabled` flag |
| NodeContext.SetLocalPosition | src/core/context.cpp:45-59 | needs a coordinate system; stores the converted input; keeps link status, node id, observers and conversion; when x or y compares unequal to before, calls exactly the registered observers in order, each with the stored position; otherwise calls nobody |
| NodeContext.Notify | src/core/context.cpp:55-57 | the calls made are the observers in list order, each once, each with the same position |
| ContextProperties.CallsIffMoved | src/core/context.cpp:48-58 | some observer is called if and only if there is an observer and the stored x or y compares unequal to the previous one |
| ContextProperties.NoObserversNoCalls | src/core/context.cpp:55-57 | with no observers registered an update calls nobody |
| ContextProperties.EnabledOnlyChangeIsSilent | src/core/context.cpp:48-52 | a change of the `enabled` flag alone, with x and y comparing equal, is stored (the has-position answer flips) yet calls nobody |
| ContextProperties.RepeatedSetIsSilent | src/core/context.cpp:48-52 | repeating an update with the same input leaves the context unchanged and calls nobody, provided the stored position has no NaN component |
| ContextProperties.NaNPositionNotifiesOnEveryRepeat | src/core/context.cpp:52-57 | when the stored position has a NaN component, repeating the same update calls every observer again with it |
| ContextProperties.RepeatedSetsNotifyOnce | src/core/context.cpp:48-58 | any number (at least one) of identical updates, without NaN, yields exactly the calls and the context of the first update alone |
| ContextProperties.HookedObserverCalledLast | src/core/context.cpp:41-57 | an observer registered last is called last, after exactly the calls the context would have made without it, and with the stored position |
| ContextProperties.EachObserverCalledOnce | src/core/context.cpp:55-57 | when observers fire and no handle is registered twice, each registered observer is called exactly once and no other observer is called |
| ContextProperties.SetAll | src/core/context.cpp:45-59 | a run of updates keeps link status, node id, observers and conversion, and ends with the conversion of the last input stored |
| ContextProperties.SetAllCallBound | src/core/context.cpp:52-57 | in a run of updates each observer is called at most (number of updates) × (number of times it is registered), so an unregistered observer never, and the run makes at most (number of updates) × (number of observers) calls |
| ContextProperties.OneUpdateCallBound | src/core/context.cpp:52-57 | one update calls each observer at most as often as it is registered, and makes at most one call per registered entry |
| Coordinates.MovedIffComponentsDifferOrNaN | src/core/context.cpp:52 | the change test holds iff x or y differ as values or either position has a NaN component; `enabled` plays no part |
| Doubles.EqReflexiveUnlessNaN | src/core/context.cpp:52 | double equality holds of a value with itself exactly when it is not NaN |

## Left out

- Logging of the change (src/core/context.cpp:53): no behaviour beyond output.
- The scheduler reference held by the context: it is stored and not used by these operations. The logger reference serves only the log line above.
- `NodeID::make_random` (src/core/context.cpp:26): randomness, so the node id is a parameter of `New`.
- Coordinate system internals (spherical/planar conversion, distance): coord_system.hpp is not part of this model. The conversion is an arbitrary deterministic function of its input alone, so a conversion that depends on the previously stored position is not covered.
- NodeContext.SetLocalPosition: assumes that the conversion and every observer return normally and never call back into the context. An observer is an arbitrary callback called synchronously inside the loop (src/core/context.cpp:55-57). If one throws, the loop stops after the new position was already stored. If one calls `set_local_position` again, the later observers still get the outer position while the inner one ends up stored. If one registers another observer, it appends to the list being iterated. If the conversion throws at src/core/context.cpp:49, nothing is stored. None of these paths is modelled.
- Signed zero: `+0.0` and `-0.0` compare equal and both are `Finite(0.0)` here, so an observer cannot see which zero it was given.
- How a coordinate system is installed into a context, and how link status changes: both happen outside context.cpp and are field updates here.
- System1D (src/core/system_1d.cpp:30-32): it only forwards to a `System1DDelegate`; the coverage policy lives in the delegate implementations, outside the context, so nothing beyond "returns what the delegate returns" could be stated.
- Error and Exception (src/colonio/error.hpp, src/core/exception.hpp): plain code/message and line/file/message records with no behaviour. The model assumes that no context operation throws; see the next line.
- Pub/sub, geocast forwarding and duplicate suppression belong to the Pubsub2D module, not to the context, and are not modelled.
