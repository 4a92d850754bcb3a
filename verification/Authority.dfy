/** Delegation of permissions between principals: `AuthorityMap` and the two searches it runs.

    A delegation `from -> to` grants its permissions to `to`, and everything held by `from` flows on
    to `to`. Cycle prevention walks the delegations downwards, permission queries walk them upwards.
 */
module Authority {

  datatype DelegationEntry = DelegationEntry(from: string, to: string, permissions: seq<string>, turn: nat)

  datatype DelegateError = SelfDelegation | DelegationCycle(from: string, to: string)

  datatype Outcome = Accepted | Rejected(error: DelegateError)

  // ---------- Reachability, stated by walks ----------

  ghost predicate Edge(ds: seq<DelegationEntry>, a: string, b: string) {
    exists i :: 0 <= i < |ds| && ds[i].from == a && ds[i].to == b
  }

  /** A nonempty list of principals in which each one delegates to the next. */
  ghost predicate Walk(ds: seq<DelegationEntry>, path: seq<string>) {
    && path != []
    && forall i :: 0 <= i < |path| - 1 ==> Edge(ds, path[i], path[i + 1])
  }

  ghost predicate WalkFrom(ds: seq<DelegationEntry>, path: seq<string>, a: string, b: string) {
    Walk(ds, path) && path[0] == a && path[|path| - 1] == b
  }

  ghost predicate Reaches(ds: seq<DelegationEntry>, a: string, b: string) {
    exists path :: WalkFrom(ds, path, a, b)
  }

  /** No principal delegates to itself through one or more delegations. */
  ghost predicate Acyclic(ds: seq<DelegationEntry>) {
    forall a, b :: Edge(ds, a, b) ==> !Reaches(ds, b, a)
  }

  /** `p` holds `x`: some entry grants `x` to `p` or to an ancestor of `p`. */
  ghost predicate Holds(ds: seq<DelegationEntry>, p: string, x: string) {
    exists i :: 0 <= i < |ds| && x in ds[i].permissions && Reaches(ds, ds[i].to, p)
  }

  lemma ReachesSelf(ds: seq<DelegationEntry>, a: string)
    ensures Reaches(ds, a, a)
  {
    assert WalkFrom(ds, [a], a, a);
  }

  lemma ReachesTransitive(ds: seq<DelegationEntry>, a: string, b: string, c: string)
    requires Reaches(ds, a, b) && Reaches(ds, b, c)
    ensures Reaches(ds, a, c)
  {
    var p :| WalkFrom(ds, p, a, b);
    var q :| WalkFrom(ds, q, b, c);
    var r := p + q[1..];
    forall i | 0 <= i < |r| - 1
      ensures Edge(ds, r[i], r[i + 1])
    {
      if i < |p| - 1 {
        assert Edge(ds, p[i], p[i + 1]);
      } else {
        assert Edge(ds, q[i - (|p| - 1)], q[i - (|p| - 1) + 1]);
      }
    }
    assert WalkFrom(ds, r, a, c);
  }

  lemma EdgeReaches(ds: seq<DelegationEntry>, a: string, b: string)
    requires Edge(ds, a, b)
    ensures Reaches(ds, a, b)
  {
    assert WalkFrom(ds, [a, b], a, b);
  }

  lemma ReachesMonotone(ds: seq<DelegationEntry>, e: DelegationEntry, a: string, b: string)
    requires Reaches(ds, a, b)
    ensures Reaches(ds + [e], a, b)
  {
    var p :| WalkFrom(ds, p, a, b);
    forall i | 0 <= i < |p| - 1
      ensures Edge(ds + [e], p[i], p[i + 1])
    {
      assert Edge(ds, p[i], p[i + 1]);
      var k :| 0 <= k < |ds| && ds[k].from == p[i] && ds[k].to == p[i + 1];
      assert (ds + [e])[k] == ds[k];
    }
    assert WalkFrom(ds + [e], p, a, b);
  }

  /** A set that contains `a` and is closed under delegation contains everything `a` reaches. */
  lemma {:induction false} ClosedSetContainsWalk(ds: seq<DelegationEntry>, s: set<string>, path: seq<string>)
    requires Walk(ds, path) && path[0] in s
    requires forall a, b :: a in s && Edge(ds, a, b) ==> b in s
    ensures path[|path| - 1] in s
    decreases |path|
  {
    if |path| > 1 {
      assert Edge(ds, path[0], path[1]);
      forall i | 0 <= i < |path[1..]| - 1
        ensures Edge(ds, path[1..][i], path[1..][i + 1])
      {
        assert Edge(ds, path[i + 1], path[i + 2]);
      }
      ClosedSetContainsWalk(ds, s, path[1..]);
    }
  }

  /** The mirror image for the upward search. */
  lemma {:induction false} ClosedSetContainsAncestors(ds: seq<DelegationEntry>, s: set<string>, path: seq<string>)
    requires Walk(ds, path) && path[|path| - 1] in s
    requires forall a, b :: b in s && Edge(ds, a, b) ==> a in s
    ensures path[0] in s
    decreases |path|
  {
    if |path| > 1 {
      assert Edge(ds, path[0], path[1]);
      forall i | 0 <= i < |path[1..]| - 1
        ensures Edge(ds, path[1..][i], path[1..][i + 1])
      {
        assert Edge(ds, path[i + 1], path[i + 2]);
      }
      ClosedSetContainsAncestors(ds, s, path[1..]);
    }
  }

  // ---------- What one appended delegation changes ----------

  /** A walk that may use the new delegation uses it at most once, up to shortcuts. */
  lemma {:induction false} WalkWithNewEdge(ds: seq<DelegationEntry>, e: DelegationEntry, path: seq<string>)
    requires Walk(ds + [e], path)
    ensures
      || Reaches(ds, path[0], path[|path| - 1])
      || (Reaches(ds, path[0], e.from) && Reaches(ds, e.to, path[|path| - 1]))
    decreases |path|
  {
    var last := path[|path| - 1];
    if |path| == 1 {
      ReachesSelf(ds, last);
    } else {
      var tail := path[1..];
      assert Edge(ds + [e], path[0], path[1]);
      forall i | 0 <= i < |tail| - 1
        ensures Edge(ds + [e], tail[i], tail[i + 1])
      {
        assert Edge(ds + [e], path[i + 1], path[i + 2]);
      }
      WalkWithNewEdge(ds, e, tail);
      var k :| 0 <= k < |ds + [e]| && (ds + [e])[k].from == path[0] && (ds + [e])[k].to == path[1];
      if k < |ds| {
        assert Edge(ds, path[0], path[1]);
        EdgeReaches(ds, path[0], path[1]);
        if Reaches(ds, path[1], last) {
          ReachesTransitive(ds, path[0], path[1], last);
        } else {
          ReachesTransitive(ds, path[0], path[1], e.from);
        }
      } else {
        ReachesSelf(ds, e.from);
      }
    }
  }

  lemma ReachesWithNewEdge(ds: seq<DelegationEntry>, e: DelegationEntry, a: string, b: string)
    ensures Reaches(ds + [e], a, b) <==> Reaches(ds, a, b) || (Reaches(ds, a, e.from) && Reaches(ds, e.to, b))
  {
    if Reaches(ds + [e], a, b) {
      var p :| WalkFrom(ds + [e], p, a, b);
      WalkWithNewEdge(ds, e, p);
    }
    if Reaches(ds, a, b) {
      ReachesMonotone(ds, e, a, b);
    }
    if Reaches(ds, a, e.from) && Reaches(ds, e.to, b) {
      ReachesMonotone(ds, e, a, e.from);
      ReachesMonotone(ds, e, e.to, b);
      assert (ds + [e])[|ds|] == e;
      assert Edge(ds + [e], e.from, e.to);
      EdgeReaches(ds + [e], e.from, e.to);
      ReachesTransitive(ds + [e], a, e.from, e.to);
      ReachesTransitive(ds + [e], a, e.to, b);
    }
  }

  /** The exact effect of a grant: only the new delegate and those below it gain anything, and they
      gain the granted permissions together with whatever the delegator already held. */
  lemma GrantEffect(ds: seq<DelegationEntry>, e: DelegationEntry, q: string, x: string)
    ensures Holds(ds + [e], q, x)
            <==> Holds(ds, q, x) || (Reaches(ds, e.to, q) && (x in e.permissions || Holds(ds, e.from, x)))
  {
    var ds' := ds + [e];
    assert forall i :: 0 <= i < |ds| ==> ds'[i] == ds[i];
    assert ds'[|ds|] == e;
    forall a, b
      ensures Reaches(ds', a, b) <==> Reaches(ds, a, b) || (Reaches(ds, a, e.from) && Reaches(ds, e.to, b))
    {
      ReachesWithNewEdge(ds, e, a, b);
    }
    ReachesSelf(ds, e.to);
    if Holds(ds', q, x) {
      var i :| 0 <= i < |ds'| && x in ds'[i].permissions && Reaches(ds', ds'[i].to, q);
      if i < |ds| {
        assert ds'[i] == ds[i];
        if !Reaches(ds, ds[i].to, q) {
          assert Holds(ds, e.from, x);
        }
      }
    }
    if Holds(ds, q, x) {
      var i :| 0 <= i < |ds| && x in ds[i].permissions && Reaches(ds, ds[i].to, q);
      assert x in ds'[i].permissions && Reaches(ds', ds'[i].to, q);
    }
    if Reaches(ds, e.to, q) && x in e.permissions {
      assert x in ds'[|ds|].permissions && Reaches(ds', ds'[|ds|].to, q);
    }
    if Reaches(ds, e.to, q) && Holds(ds, e.from, x) {
      var i :| 0 <= i < |ds| && x in ds[i].permissions && Reaches(ds, ds[i].to, e.from);
      assert x in ds'[i].permissions && Reaches(ds', ds'[i].to, q);
    }
  }

  lemma GrantEffects(ds: seq<DelegationEntry>, e: DelegationEntry)
    ensures forall q, x :: Holds(ds + [e], q, x)
              <==> Holds(ds, q, x) || (Reaches(ds, e.to, q) && (x in e.permissions || Holds(ds, e.from, x)))
  {
    forall q, x
      ensures Holds(ds + [e], q, x)
              <==> Holds(ds, q, x) || (Reaches(ds, e.to, q) && (x in e.permissions || Holds(ds, e.from, x)))
    {
      GrantEffect(ds, e, q, x);
    }
  }

  // ---------- The decision `delegate` takes, and runs of it ----------

  ghost function Decision(ds: seq<DelegationEntry>, from: string, to: string): Outcome {
    if from == to then Rejected(SelfDelegation)
    else if Reaches(ds, to, from) then Rejected(DelegationCycle(from, to))
    else Accepted
  }

  ghost function Delegated(ds: seq<DelegationEntry>, request: DelegationEntry): seq<DelegationEntry> {
    if Decision(ds, request.from, request.to) == Accepted then ds + [request] else ds
  }

  /** The map reached by a list of `delegate` calls, refused ones included. */
  ghost function Run(ds: seq<DelegationEntry>, requests: seq<DelegationEntry>): seq<DelegationEntry>
    decreases |requests|
  {
    if requests == [] then ds else Run(Delegated(ds, requests[0]), requests[1..])
  }

  /** What one step of a run does to every permission. */
  lemma StepEffect(ds: seq<DelegationEntry>, request: DelegationEntry, rest: seq<DelegationEntry>, q: string, x: string)
    ensures var after := Run(ds, [request]);
            if request.from != request.to && !Reaches(ds, request.to, request.from)
            then Holds(after, q, x)
                 <==> Holds(ds, q, x)
                      || (Reaches(ds, request.to, q) && (x in request.permissions || Holds(ds, request.from, x)))
            else after == ds
    ensures Run(ds, [request] + rest) == Run(Run(ds, [request]), rest)
  {
    hide Holds, Reaches;
    assert [request][1..] == [] && ([request] + rest)[1..] == rest;
    GrantEffect(ds, request, q, x);
  }

  /** `delegate` refuses exactly the delegations that would close a cycle, no more and no fewer. */
  lemma RefusedExactlyWhenCyclic(ds: seq<DelegationEntry>, e: DelegationEntry)
    requires Acyclic(ds)
    ensures Acyclic(ds + [e]) <==> Decision(ds, e.from, e.to) == Accepted
  {
    var ds' := ds + [e];
    assert ds'[|ds|] == e;
    assert Edge(ds', e.from, e.to);
    ReachesWithNewEdge(ds, e, e.to, e.from);
    if Decision(ds, e.from, e.to) == Accepted {
      forall a, b | Edge(ds', a, b)
        ensures !Reaches(ds', b, a)
      {
        ReachesWithNewEdge(ds, e, b, a);
        if Edge(ds, a, b) {
          if Reaches(ds, b, e.from) && Reaches(ds, e.to, a) {
            EdgeReaches(ds, a, b);
            ReachesTransitive(ds, e.to, a, b);
            ReachesTransitive(ds, e.to, b, e.from);
          }
        } else {
          var k :| 0 <= k < |ds'| && ds'[k].from == a && ds'[k].to == b;
          assert k == |ds|;
        }
      }
    } else if e.from == e.to {
      ReachesSelf(ds', e.to);
    } else {
      ReachesMonotone(ds, e, e.to, e.from);
    }
  }

  lemma {:induction false} RunStaysAcyclic(ds: seq<DelegationEntry>, requests: seq<DelegationEntry>)
    requires Acyclic(ds)
    ensures Acyclic(Run(ds, requests))
    decreases |requests|
  {
    if requests != [] {
      RefusedExactlyWhenCyclic(ds, requests[0]);
      RunStaysAcyclic(Delegated(ds, requests[0]), requests[1..]);
    }
  }

  /** Over every run from the empty map, no walk of any length comes back to where it started. */
  lemma NoCycleInAnyRun(requests: seq<DelegationEntry>, path: seq<string>)
    requires Walk(Run([], requests), path) && |path| > 1
    ensures path[0] != path[|path| - 1]
  {
    var ds := Run([], requests);
    RunStaysAcyclic([], requests);
    assert Edge(ds, path[0], path[1]);
    forall i | 0 <= i < |path[1..]| - 1
      ensures Edge(ds, path[1..][i], path[1..][i + 1])
    {
      assert Edge(ds, path[i + 1], path[i + 2]);
    }
    assert WalkFrom(ds, path[1..], path[1], path[|path| - 1]);
  }

  /** No run ever takes a permission away. */
  lemma {:induction false} RunKeepsPermissions(
      ds: seq<DelegationEntry>, requests: seq<DelegationEntry>, p: string, x: string)
    requires Holds(ds, p, x)
    ensures Holds(Run(ds, requests), p, x)
    decreases |requests|
  {
    if requests != [] {
      GrantEffect(ds, requests[0], p, x);
      RunKeepsPermissions(Delegated(ds, requests[0]), requests[1..], p, x);
    }
  }

  /** Escalation prevention: an accepted delegation never changes what the delegator, or anyone the
      delegator descends from, may do. */
  lemma NoEscalation(ds: seq<DelegationEntry>, e: DelegationEntry, ancestor: string, x: string)
    requires Decision(ds, e.from, e.to) == Accepted
    requires Reaches(ds, ancestor, e.from)
    ensures Holds(ds + [e], ancestor, x) <==> Holds(ds, ancestor, x)
  {
    GrantEffect(ds, e, ancestor, x);
    if Reaches(ds, e.to, ancestor) {
      ReachesTransitive(ds, e.to, ancestor, e.from);
    }
  }

  // ---------- The mutable map and its searches ----------

  /** Every name a search can meet when it starts from `start`. */
  ghost function Names(ds: seq<DelegationEntry>, start: string): set<string> {
    (set i | 0 <= i < |ds| :: ds[i].from) + (set i | 0 <= i < |ds| :: ds[i].to) + {start}
  }

  class AuthorityMap {
    var delegations: seq<DelegationEntry>

    constructor ()
      ensures delegations == []
    {
      delegations := [];
    }

    /** Append the delegation unless it is a self-delegation or would close a cycle. */
    method Delegate(from: string, to: string, permissions: seq<string>, turn: nat) returns (outcome: Outcome)
      modifies this
      ensures outcome == Decision(old(delegations), from, to)
      ensures delegations == Delegated(old(delegations), DelegationEntry(from, to, permissions, turn))
      ensures outcome == Accepted <==> from != to && !Reaches(old(delegations), to, from)
      ensures from == to ==> outcome == Rejected(SelfDelegation)
      ensures from != to && outcome != Accepted ==> outcome == Rejected(DelegationCycle(from, to))
      ensures outcome != Accepted ==> delegations == old(delegations)
      ensures outcome == Accepted
              ==> && |delegations| == |old(delegations)| + 1 && delegations[..|old(delegations)|] == old(delegations)
                  && var e := delegations[|old(delegations)|];
                     e.from == from && e.to == to && e.permissions == permissions && e.turn == turn
      ensures outcome == Accepted
              ==> forall q, x :: Holds(delegations, q, x)
                    <==> Holds(old(delegations), q, x)
                         || (Reaches(old(delegations), to, q)
                             && (x in permissions || Holds(old(delegations), from, x)))
    {
      hide Holds, Reaches;
      if from == to {
        return Rejected(SelfDelegation);
      }
      var cycle := WouldCreateCycle(from, to);
      if cycle {
        return Rejected(DelegationCycle(from, to));
      }
      GrantEffects(delegations, DelegationEntry(from, to, permissions, turn));
      delegations := delegations + [DelegationEntry(from, to, permissions, turn)];
      return Accepted;
    }

    /** Depth-first search downwards from `to`; terminates on cyclic lists too. */
    method WouldCreateCycle(from: string, to: string) returns (found: bool)
      ensures found <==> Reaches(delegations, to, from)
    {
      var stack := [to];
      var visited: set<string> := {};
      ReachesSelf(delegations, to);
      while stack != []
        invariant to in visited || to in stack
        invariant from !in visited
        invariant visited <= Names(delegations, to)
        invariant forall n :: n in stack ==> n in Names(delegations, to)
        invariant forall n :: n in stack ==> Reaches(delegations, to, n)
        invariant forall a, b :: a in visited && Edge(delegations, a, b) ==> b in visited || b in stack
        decreases Names(delegations, to) - visited, |stack|
      {
        var node := stack[|stack| - 1];
        ghost var before := stack;
        stack := stack[..|stack| - 1];
        assert before == stack + [node];
        if node in visited {
          continue;
        }
        visited := visited + {node};
        if node == from {
          return true;
        }
        for i := 0 to |delegations|
          invariant to in visited || to in stack
          invariant forall n :: n in stack ==> n in Names(delegations, to)
          invariant forall n :: n in stack ==> Reaches(delegations, to, n)
          invariant forall a, b :: a in visited && a != node && Edge(delegations, a, b) ==> b in visited || b in stack
          invariant forall k :: 0 <= k < i && delegations[k].from == node ==> delegations[k].to in stack
        {
          if delegations[i].from == node {
            assert Edge(delegations, node, delegations[i].to);
            EdgeReaches(delegations, node, delegations[i].to);
            ReachesTransitive(delegations, to, node, delegations[i].to);
            stack := stack + [delegations[i].to];
          }
        }
      }
      if Reaches(delegations, to, from) {
        var path :| WalkFrom(delegations, path, to, from);
        ClosedSetContainsWalk(delegations, visited, path);
      }
      return false;
    }

    /** Depth-first search upwards from `principal`, stopping at the first granting entry. */
    method HasPermission(principal: string, permission: string) returns (granted: bool)
      ensures granted <==> Holds(delegations, principal, permission)
    {
      var stack := [principal];
      var visited: set<string> := {};
      ReachesSelf(delegations, principal);
      while stack != []
        invariant principal in visited || principal in stack
        invariant visited <= Names(delegations, principal)
        invariant forall n :: n in stack ==> n in Names(delegations, principal)
        invariant forall n :: n in stack ==> Reaches(delegations, n, principal)
        invariant forall a, b :: b in visited && Edge(delegations, a, b) ==> a in visited || a in stack
        invariant forall k :: 0 <= k < |delegations| && delegations[k].to in visited
                              ==> permission !in delegations[k].permissions
        decreases Names(delegations, principal) - visited, |stack|
      {
        var current := stack[|stack| - 1];
        ghost var before := stack;
        stack := stack[..|stack| - 1];
        assert before == stack + [current];
        if current in visited {
          continue;
        }
        visited := visited + {current};
        for i := 0 to |delegations|
          invariant principal in visited || principal in stack
          invariant forall n :: n in stack ==> n in Names(delegations, principal)
          invariant forall n :: n in stack ==> Reaches(delegations, n, principal)
          invariant forall a, b ::
                      b in visited && b != current && Edge(delegations, a, b) ==> a in visited || a in stack
          invariant forall k :: 0 <= k < i && delegations[k].to == current
                                ==> delegations[k].from in stack && permission !in delegations[k].permissions
        {
          if delegations[i].to == current {
            if permission in delegations[i].permissions {
              return true;
            }
            assert Edge(delegations, delegations[i].from, current);
            EdgeReaches(delegations, delegations[i].from, current);
            ReachesTransitive(delegations, delegations[i].from, current, principal);
            stack := stack + [delegations[i].from];
          }
        }
      }
      if Holds(delegations, principal, permission) {
        var k :| 0 <= k < |delegations| && permission in delegations[k].permissions
                 && Reaches(delegations, delegations[k].to, principal);
        var path :| WalkFrom(delegations, path, delegations[k].to, principal);
        ClosedSetContainsAncestors(delegations, visited, path);
      }
      return false;
    }
  }
}
