/**
 The membership graph of the account store: groups contain users and other groups.
 Reachability is defined by explicit paths; every walk in the project is measured against it.
 */
module MembershipGraph {

  /** A (member_type, member_id) pair. */
  datatype Subject = UserRef(id: nat) | GroupRef(id: nat)

  /** One row of the memberships table: `groupId` directly contains `member`. */
  datatype Membership = Membership(groupId: nat, member: Subject)

  type Graph = set<Membership>

  /** The groups that directly contain `s`. */
  function Parents(m: Graph, s: Subject): (r: set<nat>)
    ensures forall g :: g in r <==> Membership(g, s) in m
  {
    set e | e in m && e.member == s :: e.groupId
  }

  /** The groups directly contained in group `g`. */
  function Children(m: Graph, g: nat): (r: set<nat>)
    ensures forall d :: d in r <==> Membership(g, GroupRef(d)) in m
  {
    set e | e in m && e.groupId == g && e.member.GroupRef? :: e.member.id
  }

  /** Every group that contains something. */
  function Containers(m: Graph): (r: set<nat>) {
    set e | e in m :: e.groupId
  }

  /** `p` climbs from `s`: p[0] contains `s`, and each later group contains the one before it. */
  ghost predicate Climbs(m: Graph, s: Subject, p: seq<nat>) {
    && |p| > 0
    && Membership(p[0], s) in m
    && forall i :: 0 < i < |p| ==> Membership(p[i], GroupRef(p[i - 1])) in m
  }

  ghost predicate ClimbsTo(m: Graph, s: Subject, p: seq<nat>, g: nat) {
    Climbs(m, s, p) && p[|p| - 1] == g
  }

  /** Group `g` contains `s` through one or more membership edges. */
  ghost predicate Holds(m: Graph, g: nat, s: Subject) {
    exists p :: ClimbsTo(m, s, p, g)
  }

  ghost predicate OnCycle(m: Graph, g: nat) {
    Holds(m, g, GroupRef(g))
  }

  ghost predicate Acyclic(m: Graph) {
    forall g :: !OnCycle(m, g)
  }

  /** Some group that (transitively) contains `s` lies on a cycle. */
  ghost predicate CycleAbove(m: Graph, s: Subject) {
    exists g :: Holds(m, g, s) && OnCycle(m, g)
  }

  lemma HoldsDirect(m: Graph, g: nat, s: Subject)
    requires Membership(g, s) in m
    ensures Holds(m, g, s)
  {
    assert ClimbsTo(m, s, [g], g);
  }

  lemma HoldsTrans(m: Graph, h: nat, g: nat, s: Subject)
    requires Holds(m, g, s) && Holds(m, h, GroupRef(g))
    ensures Holds(m, h, s)
  {
    var p :| ClimbsTo(m, s, p, g);
    var q :| ClimbsTo(m, GroupRef(g), q, h);
    var r := p + q;
    forall i | 0 < i < |r| ensures Membership(r[i], GroupRef(r[i - 1])) in m {
      if i > |p| {
        assert r[i] == q[i - |p|] && r[i - 1] == q[i - |p| - 1];
      }
    }
    assert ClimbsTo(m, s, r, h);
  }

  /** A group holds `s` exactly when it is a direct parent or holds one: the first step of a climb. */
  lemma HoldsFirstStep(m: Graph, g: nat, s: Subject)
    ensures Holds(m, g, s) <==>
            exists h :: Membership(h, s) in m && (h == g || Holds(m, g, GroupRef(h)))
  {
    if Holds(m, g, s) {
      var p :| ClimbsTo(m, s, p, g);
      if |p| > 1 {
        assert ClimbsTo(m, GroupRef(p[0]), p[1..], g);
      }
      assert Membership(p[0], s) in m && (p[0] == g || Holds(m, g, GroupRef(p[0])));
    }
    forall h | Membership(h, s) in m && (h == g || Holds(m, g, GroupRef(h))) ensures Holds(m, g, s) {
      HoldsDirect(m, h, s);
      if h != g { HoldsTrans(m, g, h, s); }
    }
  }

  lemma HoldsMonotone(m: Graph, m': Graph, g: nat, s: Subject)
    requires m <= m' && Holds(m, g, s)
    ensures Holds(m', g, s)
  {
    var p :| ClimbsTo(m, s, p, g);
    assert ClimbsTo(m', s, p, g);
  }

  lemma AcyclicSubset(m: Graph, m': Graph)
    requires m <= m' && Acyclic(m')
    ensures Acyclic(m)
  {
    forall g | OnCycle(m, g) ensures false {
      assert !OnCycle(m', g);
      HoldsMonotone(m, m', g, GroupRef(g));
    }
  }

  /** A set of groups closed under "is directly contained in". */
  ghost predicate UpClosed(m: Graph, b: set<nat>) {
    forall g, h :: g in b && Membership(h, GroupRef(g)) in m ==> h in b
  }

  /** A climb that starts inside an up-closed set never leaves it. */
  lemma {:induction false} ClimbStaysInside(m: Graph, b: set<nat>, s: Subject, p: seq<nat>)
    requires UpClosed(m, b) && Parents(m, s) <= b && Climbs(m, s, p)
    ensures forall i :: 0 <= i < |p| ==> p[i] in b
  {
    if |p| > 1 {
      var q := p[..|p| - 1];
      assert Climbs(m, s, q);
      ClimbStaysInside(m, b, s, q);
      var last := |p| - 1;
      assert p[last - 1] == q[last - 1];
      assert p[last - 1] in b && Membership(p[last], GroupRef(p[last - 1])) in m;
      forall i | 0 <= i < |p| ensures p[i] in b {
        if i < last { assert p[i] == q[i]; }
      }
    } else {
      assert p[0] in Parents(m, s);
    }
  }

  lemma HoldersInside(m: Graph, b: set<nat>, s: Subject, g: nat)
    requires UpClosed(m, b) && Parents(m, s) <= b && Holds(m, g, s)
    ensures g in b
  {
    var p :| ClimbsTo(m, s, p, g);
    ClimbStaysInside(m, b, s, p);
  }

  /**
   The edge "g contains h" lies on a closed walk of the extended graph exactly when the downward
   test of the source fires: g is h itself or h already contains g. Holds on corrupt graphs too.
   */
  lemma EdgeClosesWalk(m: Graph, g: nat, h: nat)
    ensures (g == h || Holds(m, h, GroupRef(g))) <==>
            exists p :: ClimbsTo(m + {Membership(g, GroupRef(h))}, GroupRef(h), p, h) && p[0] == g
  {
    var e := Membership(g, GroupRef(h));
    if g == h {
      assert ClimbsTo(m + {e}, GroupRef(h), [g], h);
    } else if Holds(m, h, GroupRef(g)) {
      var q :| ClimbsTo(m, GroupRef(g), q, h);
      var p := [g] + q;
      forall i | 0 < i < |p| ensures Membership(p[i], GroupRef(p[i - 1])) in m + {e} {
        assert p[i] == q[i - 1];
        if i > 1 { assert p[i - 1] == q[i - 2]; }
      }
      assert ClimbsTo(m + {e}, GroupRef(h), p, h);
    }
    forall p | ClimbsTo(m + {e}, GroupRef(h), p, h) && p[0] == g
      ensures g == h || Holds(m, h, GroupRef(g))
    {
      AvoidNewEdge(m, g, h, p);
    }
  }

  /** A walk from g up to h in the extended graph can be cut down to one without the new edge. */
  lemma {:induction false} AvoidNewEdge(m: Graph, g: nat, h: nat, p: seq<nat>)
    requires |p| > 0 && p[0] == g && p[|p| - 1] == h
    requires forall i :: 0 < i < |p| ==> Membership(p[i], GroupRef(p[i - 1])) in m + {Membership(g, GroupRef(h))}
    ensures g == h || Holds(m, h, GroupRef(g))
    decreases |p|
  {
    var e := Membership(g, GroupRef(h));
    if g != h {
      if i :| 0 < i < |p| && Membership(p[i], GroupRef(p[i - 1])) == e {
        AvoidNewEdge(m, g, h, p[..i]);
      } else {
        assert forall i :: 0 < i < |p| ==> Membership(p[i], GroupRef(p[i - 1])) != e;
        var q := p[1..];
        assert forall i :: 0 < i < |q| ==> q[i] == p[i + 1] && q[i - 1] == p[i];
        assert Membership(p[1], GroupRef(p[0])) in m;
        assert ClimbsTo(m, GroupRef(g), q, h);
      }
    }
  }

  /** On an acyclic graph the new group edge breaks acyclicity exactly when the test fires. */
  lemma EdgeBreaksAcyclicity(m: Graph, g: nat, h: nat)
    requires Acyclic(m)
    ensures !Acyclic(m + {Membership(g, GroupRef(h))}) <==> (g == h || Holds(m, h, GroupRef(g)))
  {
    var e := Membership(g, GroupRef(h));
    EdgeClosesWalk(m, g, h);
    if g == h || Holds(m, h, GroupRef(g)) {
      assert OnCycle(m + {e}, h);
    } else {
      forall c | OnCycle(m + {e}, c) ensures false {
        var p :| ClimbsTo(m + {e}, GroupRef(c), p, c);
        NewCycleUsesEdge(m, g, h, c, p);
      }
    }
  }

  lemma NewCycleUsesEdge(m: Graph, g: nat, h: nat, c: nat, p: seq<nat>)
    requires Acyclic(m) && ClimbsTo(m + {Membership(g, GroupRef(h))}, GroupRef(c), p, c)
    ensures g == h || Holds(m, h, GroupRef(g))
  {
    var e := Membership(g, GroupRef(h));
    var w := [c] + p;
    if i :| 0 < i < |w| && w[i] == g && w[i - 1] == h {
      // rotate the cycle so that it starts just after the new edge
      var r := w[i..] + p[..i];
      assert |r| == |w| - i + i;
      forall k | 0 < k < |r| ensures Membership(r[k], GroupRef(r[k - 1])) in m + {e} {
        if k < |w| - i {
          assert r[k] == w[i + k] == p[i + k - 1] && r[k - 1] == w[i + k - 1];
        } else {
          var j := k - (|w| - i);
          assert r[k] == p[j];
          if j == 0 { assert r[k - 1] == w[|w| - 1] == c; } else { assert r[k - 1] == p[j - 1]; }
        }
      }
      var walk := r[..|w| - i + i - 1];
      assert walk[|walk| - 1] == h by {
        if i == 1 { assert walk == w[1..]; } else { assert walk[|walk| - 1] == p[i - 2] == w[i - 1]; }
      }
      AvoidNewEdge(m, g, h, walk);
    } else {
      assert forall i :: 0 < i < |w| ==> Membership(w[i], GroupRef(w[i - 1])) != e;
      assert forall i :: 0 <= i < |p| ==> p[i] == w[i + 1];
      assert Membership(p[0], GroupRef(c)) in m by { assert w[1] == p[0] && w[0] == c; }
      forall i | 0 < i < |p| ensures Membership(p[i], GroupRef(p[i - 1])) in m {
        assert w[i + 1] == p[i] && w[i] == p[i - 1];
      }
      assert ClimbsTo(m, GroupRef(c), p, c);
      assert OnCycle(m, c);
    }
  }

  /** An edge to a user never takes part in a cycle. */
  lemma UserEdgeKeepsAcyclic(m: Graph, g: nat, u: nat)
    requires Acyclic(m)
    ensures Acyclic(m + {Membership(g, UserRef(u))})
  {
    var m' := m + {Membership(g, UserRef(u))};
    forall c | OnCycle(m', c) ensures false {
      var p :| ClimbsTo(m', GroupRef(c), p, c);
      assert ClimbsTo(m, GroupRef(c), p, c);
      assert OnCycle(m, c);
    }
  }
}
