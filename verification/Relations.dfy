/**
 * Finite binary relations as sets of pairs, the paths they allow and acyclicity.
 * Throughout the project a pair (u, v) reads "v depends on u".
 */
module Relations {

  /** `p` lists the vertices visited after `a` on a way to `b`. */
  ghost predicate Path<T(!new)>(r: set<(T, T)>, a: T, p: seq<T>, b: T)
    decreases |p|
  {
    if p == [] then a == b else (a, p[0]) in r && Path(r, p[0], p[1..], b)
  }

  /** Reflexive-transitive reachability. */
  ghost predicate Reach<T(!new)>(r: set<(T, T)>, a: T, b: T) {
    exists p :: Path(r, a, p, b)
  }

  /** Reachability in at least one step. */
  ghost predicate Plus<T(!new)>(r: set<(T, T)>, a: T, b: T) {
    exists c :: (a, c) in r && Reach(r, c, b)
  }

  ghost predicate Acyclic<T(!new)>(r: set<(T, T)>) {
    forall a :: !Plus(r, a, a)
  }

  /** `s` holds every predecessor of its members. */
  ghost predicate PredClosed<T(!new)>(r: set<(T, T)>, s: set<T>) {
    forall u, v :: (u, v) in r && v in s ==> u in s
  }

  lemma ReachRefl<T(!new)>(r: set<(T, T)>, a: T)
    ensures Reach(r, a, a)
  {
    assert Path(r, a, [], a);
  }

  lemma {:induction false} PathConcat<T(!new)>(r: set<(T, T)>, a: T, p: seq<T>, b: T, q: seq<T>, c: T)
    requires Path(r, a, p, b) && Path(r, b, q, c)
    ensures Path(r, a, p + q, c)
    decreases |p|
  {
    if p == [] {
      assert p + q == q;
    } else {
      PathConcat(r, p[0], p[1..], b, q, c);
      assert (p + q)[1..] == p[1..] + q;
    }
  }

  lemma ReachTrans<T(!new)>(r: set<(T, T)>, a: T, b: T, c: T)
    requires Reach(r, a, b) && Reach(r, b, c)
    ensures Reach(r, a, c)
  {
    var p :| Path(r, a, p, b);
    var q :| Path(r, b, q, c);
    PathConcat(r, a, p, b, q, c);
  }

  lemma ReachStep<T(!new)>(r: set<(T, T)>, a: T, b: T)
    requires (a, b) in r
    ensures Reach(r, a, b)
  {
    assert Path(r, b, [], b);
    assert Path(r, a, [b], b);
  }

  lemma {:induction false} PathMonotone<T(!new)>(r: set<(T, T)>, r': set<(T, T)>, a: T, p: seq<T>, b: T)
    requires r <= r' && Path(r, a, p, b)
    ensures Path(r', a, p, b)
    decreases |p|
  {
    if p == [] {
    } else {
      PathMonotone(r, r', p[0], p[1..], b);
    }
  }

  lemma ReachMonotone<T(!new)>(r: set<(T, T)>, r': set<(T, T)>, a: T, b: T)
    requires r <= r' && Reach(r, a, b)
    ensures Reach(r', a, b)
  {
    var p :| Path(r, a, p, b);
    PathMonotone(r, r', a, p, b);
  }

  lemma PlusMonotone<T(!new)>(r: set<(T, T)>, r': set<(T, T)>, a: T, b: T)
    requires r <= r' && Plus(r, a, b)
    ensures Plus(r', a, b)
  {
    var c :| (a, c) in r && Reach(r, c, b);
    ReachMonotone(r, r', c, b);
  }

  lemma StepReach<T(!new)>(r: set<(T, T)>, a: T, b: T, c: T)
    requires (a, b) in r && Reach(r, b, c)
    ensures Reach(r, a, c) && Plus(r, a, c)
  {
    ReachStep(r, a, b);
    ReachTrans(r, a, b, c);
  }

  lemma ReachPlus<T(!new)>(r: set<(T, T)>, a: T, b: T, c: T)
    requires Reach(r, a, b) && Plus(r, b, c)
    ensures Plus(r, a, c)
  {
    var p :| Path(r, a, p, b);
    if p != [] {
      var d :| (b, d) in r && Reach(r, d, c);
      assert Path(r, p[0], p[1..], b);
      StepReach(r, b, d, c);
      ReachTrans(r, p[0], b, c);
    }
  }

  /** A path that is not empty is a step followed by a path. */
  lemma ReachCases<T(!new)>(r: set<(T, T)>, a: T, b: T)
    requires Reach(r, a, b)
    ensures a == b || Plus(r, a, b)
  {
    var p :| Path(r, a, p, b);
    if p != [] {
      assert Path(r, p[0], p[1..], b);
    }
  }

  /** A path of at least one step ends with a step. */
  lemma LastStep<T(!new)>(r: set<(T, T)>, a: T, b: T) returns (u: T)
    requires Plus(r, a, b)
    ensures Reach(r, a, u) && (u, b) in r
  {
    var c :| (a, c) in r && Reach(r, c, b);
    var p :| Path(r, c, p, b);
    u := LastStepOnPath(r, a, c, p, b);
  }

  lemma {:induction false} LastStepOnPath<T(!new)>(r: set<(T, T)>, a: T, c: T, p: seq<T>, b: T) returns (u: T)
    requires (a, c) in r && Path(r, c, p, b)
    ensures Reach(r, a, u) && (u, b) in r
    decreases |p|
  {
    if p == [] {
      u := a;
      ReachRefl(r, a);
    } else {
      u := LastStepOnPath(r, c, p[0], p[1..], b);
      StepReach(r, a, c, u);
    }
  }

  /** A set closed under predecessors holds everything that reaches one of its members. */
  lemma ClosedHoldsReach<T(!new)>(r: set<(T, T)>, s: set<T>, a: T, b: T)
    requires PredClosed(r, s) && b in s && Reach(r, a, b)
    ensures a in s
  {
    var p :| Path(r, a, p, b);
    ClosedHoldsPath(r, s, a, p, b);
  }

  lemma {:induction false} ClosedHoldsPath<T(!new)>(r: set<(T, T)>, s: set<T>, a: T, p: seq<T>, b: T)
    requires PredClosed(r, s) && b in s && Path(r, a, p, b)
    ensures a in s
    decreases |p|
  {
    if p == [] {
    } else {
      ClosedHoldsPath(r, s, p[0], p[1..], b);
    }
  }

  /** Every way through `r + {(a, b)}` either avoids the new pair or splits around it. */
  lemma {:induction false} PathAround<T(!new)>(r: set<(T, T)>, a: T, b: T, x: T, p: seq<T>, y: T)
    requires Path(r + {(a, b)}, x, p, y)
    ensures Reach(r, x, y) || (Reach(r, x, a) && Reach(r, b, y))
    decreases |p|
  {
    ReachRefl(r, x);
    if p == [] {
    } else {
      var c := p[0];
      PathAround(r, a, b, c, p[1..], y);
      if (x, c) in r {
        if Reach(r, c, y) {
          StepReach(r, x, c, y);
        } else {
          StepReach(r, x, c, a);
        }
      }
    }
  }

  /** Adding a pair whose target does not reach its source closes no cycle. */
  lemma AddPairAcyclic<T(!new)>(r: set<(T, T)>, a: T, b: T)
    requires Acyclic(r) && !Reach(r, b, a)
    ensures Acyclic(r + {(a, b)})
  {
    var r' := r + {(a, b)};
    forall x | Plus(r', x, x)
      ensures false
    {
      var c :| (x, c) in r' && Reach(r', c, x);
      var p :| Path(r', c, p, x);
      PathAround(r, a, b, c, p, x);
      if (x, c) in r {
        if Reach(r, c, x) {
          assert Plus(r, x, x);
        } else {
          StepReach(r, x, c, a);
          ReachTrans(r, b, x, a);
        }
      }
    }
  }

  /** In an acyclic relation every non-empty set has a member without a predecessor in the set. */
  lemma {:induction false} MinimalElement<T(!new)>(r: set<(T, T)>, s: set<T>) returns (m: T)
    requires Acyclic(r) && s != {}
    ensures m in s && forall u :: u in s ==> (u, m) !in r
    decreases |s|
  {
    var x :| x in s;
    var below := set u | u in s && Plus(r, u, x);
    if forall u :: u in s ==> !Plus(r, u, x) {
      m := x;
      forall u | u in s && (u, m) in r
        ensures false
      {
        ReachRefl(r, x);
        StepReach(r, u, m, x);
      }
    } else {
      var y :| y in s && Plus(r, y, x);
      assert y in below;
      assert x !in below && below <= s - {x};
      StrictlySmaller(below, s, x);
      m := MinimalElement(r, below);
      forall u | u in s && (u, m) in r
        ensures false
      {
        ReachStep(r, u, m);
        ReachPlus(r, u, m, x);
      }
    }
  }

  lemma {:induction false} StrictlySmaller<T(!new)>(small: set<T>, big: set<T>, x: T)
    requires small <= big && x in big && x !in small
    ensures |small| < |big|
  {
    assert big == (big - {x}) + {x};
    if small == {} {
    } else {
      var y :| y in small;
      StrictlySmaller(small - {y}, big - {y}, x);
    }
  }
}
