/** Properties relating several context operations: observer registration
    order, queries after an update, the notify-on-change / silent-on-repeat
    contract of `SetLocalPosition`, and runs of updates. */
module ContextProperties {
  import opened Doubles
  import opened Coordinates
  import opened NodeContext

  /** Register the observers of `fs`, first to last. */
  function HookAll(c: Context, fs: seq<Observer>): (c': Context)
    ensures c'.observers == c.observers + fs
    ensures c'.linkStatus == c.linkStatus
    ensures c'.localNid == c.localNid
    ensures c'.coordSystem == c.coordSystem
    decreases |fs|
  {
    if fs == [] then c
    else
      var r := HookAll(Hook(c, fs[0]), fs[1..]);
      assert c.observers + [fs[0]] + fs[1..] == c.observers + fs;
      r
  }

  /** A fresh context followed by any registrations is offline, keeps its
      node id, has no coordinate system and holds exactly the registered
      observers in registration order. */
  lemma NewThenHookAll(nid: NodeId, fs: seq<Observer>)
    ensures HookAll(New(nid), fs) == Context(Offline, nid, None, fs)
  {
  }

  /** After an update, the queries read the converted input. */
  lemma QueriesReadStoredPosition(c: Context, pos: Coordinate)
    requires HasCoordSystem(c)
    ensures var c' := SetLocalPosition(c, pos).context;
            HasCoordSystem(c')
            && GetLocalPosition(c') == Normalize(c, pos)
            && HasLocalPosition(c') == Normalize(c, pos).enabled
  {
  }

  /** With no observers registered an update makes no calls at all. */
  lemma NoObserversNoCalls(c: Context, pos: Coordinate)
    requires HasCoordSystem(c)
    requires c.observers == []
    ensures SetLocalPosition(c, pos).calls == []
  {
  }

  /** Observers fire exactly when the stored x or y changes: the trace is
      non-empty iff there are observers and the position moved. */
  lemma CallsIffMoved(c: Context, pos: Coordinate)
    requires HasCoordSystem(c)
    ensures SetLocalPosition(c, pos).calls != [] <==>
            (c.observers != [] && Moved(GetLocalPosition(c), Normalize(c, pos)))
  {
  }

  /** A change of the `enabled` flag alone, with x and y comparing equal,
      is stored but notifies nobody. */
  lemma EnabledOnlyChangeIsSilent(c: Context, pos: Coordinate)
    requires HasCoordSystem(c)
    requires Eq(GetLocalPosition(c).x, Normalize(c, pos).x)
    requires Eq(GetLocalPosition(c).y, Normalize(c, pos).y)
    requires GetLocalPosition(c).enabled != Normalize(c, pos).enabled
    ensures var s := SetLocalPosition(c, pos);
            s.calls == []
            && HasLocalPosition(s.context) != HasLocalPosition(c)
  {
  }

  /** Idempotence: repeating an update with the same input, when the stored
      position has no NaN component, leaves the context as it is and makes
      no calls. */
  lemma RepeatedSetIsSilent(c: Context, pos: Coordinate)
    requires HasCoordSystem(c)
    requires !HasNaN(Normalize(c, pos))
    ensures var s1 := SetLocalPosition(c, pos);
            var s2 := SetLocalPosition(s1.context, pos);
            s2.calls == [] && s2.context == s1.context
  {
  }

  /** The repeat is silent only without NaN: a NaN component compares
      unequal to itself, so every repetition calls all observers again. */
  lemma NaNPositionNotifiesOnEveryRepeat(c: Context, pos: Coordinate)
    requires HasCoordSystem(c)
    requires HasNaN(Normalize(c, pos))
    ensures var s1 := SetLocalPosition(c, pos);
            var s2 := SetLocalPosition(s1.context, pos);
            Invoked(s2.calls) == c.observers && AllWith(s2.calls, Normalize(c, pos))
  {
  }

  /** An observer registered last is called last, after the calls the
      context would have made without it. */
  lemma HookedObserverCalledLast(c: Context, f: Observer, pos: Coordinate)
    requires HasCoordSystem(c)
    requires Moved(GetLocalPosition(c), Normalize(c, pos))
    ensures var calls := SetLocalPosition(Hook(c, f), pos).calls;
            |calls| == |c.observers| + 1
            && calls[..|c.observers|] == SetLocalPosition(c, pos).calls
            && calls[|c.observers|] == Call(f, Normalize(c, pos))
  {
  }

  /** Number of occurrences of `o` in `obs`. */
  function Occurrences(obs: seq<Observer>, o: Observer): nat
  {
    multiset(obs)[o]
  }

  /** No observer handle is registered twice. */
  predicate Distinct(obs: seq<Observer>)
  {
    forall i, j :: 0 <= i < j < |obs| ==> obs[i] != obs[j]
  }

  lemma {:induction false} DistinctOccursOnce(obs: seq<Observer>, o: Observer)
    requires Distinct(obs)
    requires o in obs
    ensures Occurrences(obs, o) == 1
    decreases |obs|
  {
    assert obs == [obs[0]] + obs[1..];
    assert Distinct(obs[1..]) by {
      forall i, j | 0 <= i < j < |obs[1..]|
        ensures obs[1..][i] != obs[1..][j]
      {
        assert obs[1..][i] == obs[i + 1] && obs[1..][j] == obs[j + 1];
      }
    }
    if obs[0] == o {
      assert o !in obs[1..] by {
        forall k | 0 <= k < |obs[1..]|
          ensures obs[1..][k] != o
        {
          assert obs[1..][k] == obs[k + 1];
        }
      }
      assert multiset(obs[1..])[o] == 0;
      assert multiset(obs) == multiset([obs[0]]) + multiset(obs[1..]);
    } else {
      assert o in obs[1..];
      DistinctOccursOnce(obs[1..], o);
      assert multiset(obs) == multiset([obs[0]]) + multiset(obs[1..]);
    }
  }

  /** When observers fire and no handle is registered twice, each registered
      observer is called exactly once, and nothing else is called. */
  lemma EachObserverCalledOnce(c: Context, pos: Coordinate)
    requires HasCoordSystem(c)
    requires Distinct(c.observers)
    requires Moved(GetLocalPosition(c), Normalize(c, pos))
    ensures forall o :: Occurrences(Invoked(SetLocalPosition(c, pos).calls), o)
                        == if o in c.observers then 1 else 0
  {
    var invoked := Invoked(SetLocalPosition(c, pos).calls);
    assert invoked == c.observers;
    forall o
      ensures Occurrences(invoked, o) == if o in c.observers then 1 else 0
    {
      if o in c.observers {
        DistinctOccursOnce(c.observers, o);
      }
    }
  }

  /** Apply the updates of `ps`, first to last, collecting all calls. */
  function SetAll(c: Context, ps: seq<Coordinate>): (s: Step)
    requires HasCoordSystem(c)
    ensures HasCoordSystem(s.context)
    ensures s.context.linkStatus == c.linkStatus
    ensures s.context.localNid == c.localNid
    ensures s.context.observers == c.observers
    ensures s.context.coordSystem.value.normalize == c.coordSystem.value.normalize
    ensures ps != [] ==> GetLocalPosition(s.context) == Normalize(c, ps[|ps| - 1])
    ensures ps == [] ==> s.context == c
    decreases |ps|
  {
    if ps == [] then Step(c, [])
    else
      var first := SetLocalPosition(c, ps[0]);
      var rest := SetAll(first.context, ps[1..]);
      Step(rest.context, first.calls + rest.calls)
  }

  /** `n` copies of `pos`. */
  function Repeat(pos: Coordinate, n: nat): (ps: seq<Coordinate>)
    ensures |ps| == n
    ensures forall i :: 0 <= i < n ==> ps[i] == pos
  {
    if n == 0 then [] else [pos] + Repeat(pos, n - 1)
  }

  /** Updating with the same input any number of times (at least once)
      notifies exactly as the first update alone does and ends in the
      same context, provided the stored position has no NaN component. */
  lemma {:induction false} RepeatedSetsNotifyOnce(c: Context, pos: Coordinate, n: nat)
    requires HasCoordSystem(c)
    requires n >= 1
    requires !HasNaN(Normalize(c, pos))
    ensures SetAll(c, Repeat(pos, n)) == SetLocalPosition(c, pos)
    decreases n
  {
    var first := SetLocalPosition(c, pos);
    var ps := Repeat(pos, n);
    assert ps[0] == pos && ps[1..] == Repeat(pos, n - 1);
    if n == 1 {
      assert SetAll(first.context, ps[1..]) == Step(first.context, []);
      assert first.calls + [] == first.calls;
    } else {
      RepeatedSetIsSilent(c, pos);
      assert Normalize(first.context, pos) == Normalize(c, pos);
      RepeatedSetsNotifyOnce(first.context, pos, n - 1);
      assert SetAll(first.context, ps[1..]) == SetLocalPosition(first.context, pos);
      assert first.calls + [] == first.calls;
    }
  }

  /** The observers invoked by two traces in a row are those of the first
      followed by those of the second. */
  lemma InvokedAppend(a: seq<Call>, b: seq<Call>)
    ensures Invoked(a + b) == Invoked(a) + Invoked(b)
  {
    assert |Invoked(a + b)| == |Invoked(a) + Invoked(b)|;
    forall i | 0 <= i < |a + b|
      ensures Invoked(a + b)[i] == (Invoked(a) + Invoked(b))[i]
    {
      if i < |a| {
        assert (a + b)[i] == a[i];
      } else {
        assert (a + b)[i] == b[i - |a|];
      }
    }
  }

  /** A single update calls each observer at most as often as it is
      registered, and makes at most one call per registered entry. */
  lemma OneUpdateCallBound(c: Context, pos: Coordinate, o: Observer)
    requires HasCoordSystem(c)
    ensures Occurrences(Invoked(SetLocalPosition(c, pos).calls), o) <= Occurrences(c.observers, o)
    ensures |SetLocalPosition(c, pos).calls| <= |c.observers|
  {
  }

  lemma MulSucc(m: nat, k: nat)
    ensures (m + 1) * k == k + m * k
  {
  }

  /** In a run of updates, every observer is called at most once per update
      and per registration (so at most once per update when it is registered
      once), an observer that is not registered is never called, and the run
      makes at most one call per registered entry per update. */
  lemma {:induction false} SetAllCallBound(c: Context, ps: seq<Coordinate>)
    requires HasCoordSystem(c)
    ensures forall o :: Occurrences(Invoked(SetAll(c, ps).calls), o)
                        <= |ps| * Occurrences(c.observers, o)
    ensures |SetAll(c, ps).calls| <= |ps| * |c.observers|
    decreases |ps|
  {
    if ps != [] {
      var first := SetLocalPosition(c, ps[0]);
      var rest := SetAll(first.context, ps[1..]);
      var calls := SetAll(c, ps).calls;
      assert calls == first.calls + rest.calls;
      SetAllCallBound(first.context, ps[1..]);
      InvokedAppend(first.calls, rest.calls);
      var n := |ps| - 1;
      forall o
        ensures Occurrences(Invoked(calls), o) <= |ps| * Occurrences(c.observers, o)
      {
        OneUpdateCallBound(c, ps[0], o);
        MulSucc(n, Occurrences(c.observers, o));
        assert multiset(Invoked(calls))
            == multiset(Invoked(first.calls)) + multiset(Invoked(rest.calls));
      }
      OneUpdateCallBound(c, ps[0], Observer(0));
      MulSucc(n, |c.observers|);
    }
  }
}
