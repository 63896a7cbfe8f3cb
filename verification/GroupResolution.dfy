/**
 The two walks over the membership graph: the upward depth-first resolution of a user's groups and
 the downward worklist of the write guard. Both are proved exact on every finite graph, corrupt
 ones included.
 */
module GroupResolution {
  import opened Prelude
  import opened MembershipGraph

  datatype AccountError =
    | InvalidArgument
    | UsernameTaken(username: string)
    | UserNotFound
    | GroupNotFound
    | GroupNameTaken(name: string)
    | GroupCycle(groupId: nat, memberGroupId: nat)
    | DuplicateMembership
    | MembershipNotFound

  /** Finished groups: their parents are finished and none of them lies on a cycle. */
  ghost predicate Finished(m: Graph, b: set<nat>) {
    UpClosed(m, b) && forall g :: g in b ==> !OnCycle(m, g)
  }

  /** The branch from the walk's start to `s`: every group on it is `s` itself or is held by `s`. */
  ghost predicate OnBranch(m: Graph, path: set<nat>, s: Subject) {
    forall g :: g in path ==> s == GroupRef(g) || (s.GroupRef? && Holds(m, s.id, GroupRef(g)))
  }

  /** Finishing one more group whose parents are all finished. */
  lemma FinishGroup(m: Graph, b: set<nat>, g: nat)
    requires Finished(m, b) && Parents(m, GroupRef(g)) <= b && g !in b
    ensures Finished(m, b + {g})
  {
    forall x, h | x in b + {g} && Membership(h, GroupRef(x)) in m ensures h in b + {g} {
      if x == g { assert h in Parents(m, GroupRef(g)); }
    }
    if OnCycle(m, g) {
      HoldersInside(m, b, GroupRef(g), g);
    }
  }

  /** One step up keeps the branch property. */
  lemma ExtendBranch(m: Graph, path: set<nat>, s: Subject, parent: nat)
    requires OnBranch(m, path, s) && Membership(parent, s) in m
    ensures OnBranch(m, path + {parent}, GroupRef(parent))
  {
    HoldsDirect(m, parent, s);
    forall g | g in path && g != parent ensures Holds(m, parent, GroupRef(g)) {
      if s != GroupRef(g) { HoldsTrans(m, parent, s.id, GroupRef(g)); }
    }
  }

  /** A parent that is already on the branch closes a cycle above `s`. */
  lemma BranchCycle(m: Graph, path: set<nat>, s: Subject, parent: nat)
    requires OnBranch(m, path, s) && Membership(parent, s) in m && parent in path
    ensures Holds(m, parent, s) && OnCycle(m, parent)
  {
    HoldsDirect(m, parent, s);
    if s != GroupRef(parent) { HoldsTrans(m, parent, s.id, GroupRef(parent)); }
  }

  /** The shared accumulator of one resolution. */
  class Resolver {
    const m: Graph
    var acc: set<nat>

    constructor (m: Graph)
      ensures this.m == m && acc == {}
    {
      this.m, acc := m, {};
    }

    /** What the walk below `member` knows on entry. */
    ghost predicate Entry(member: Subject, path: set<nat>)
      reads this
    {
      && path <= acc
      && Finished(m, acc - path)
      && OnBranch(m, path, member)
    }

    /**
     Explores everything above `member`. On success every parent of `member` is finished; on failure
     the reported group holds `member` and lies on a cycle.
     */
    method CollectParents(member: Subject, path: set<nat>) returns (r: Result<(), AccountError>)
      requires Entry(member, path)
      modifies this
      ensures old(acc) <= acc && path <= acc
      ensures forall g :: g in acc ==> g in old(acc) || Holds(m, g, member)
      ensures r.Success? ==> Finished(m, acc - path) && Parents(m, member) <= acc - path
      ensures r.Failure? ==>
                && r.error.GroupCycle? && r.error.groupId == r.error.memberGroupId
                && Holds(m, r.error.groupId, member) && OnCycle(m, r.error.groupId)
      decreases Containers(m) - acc
    {
      var parentIds := AnyOrder(Parents(m, member));
      for i := 0 to |parentIds|
        invariant old(acc) <= acc && path <= acc
        invariant Finished(m, acc - path)
        invariant forall k :: 0 <= k < i ==> parentIds[k] in acc - path
        invariant forall g :: g in acc ==> g in old(acc) || Holds(m, g, member)
      {
        var parentId := parentIds[i];
        assert Membership(parentId, member) in m by { assert parentId in Parents(m, member); }
        if parentId in path {
          BranchCycle(m, path, member, parentId);
          return Failure(GroupCycle(parentId, parentId));
        }
        if parentId in acc {
          continue;
        }
        ghost var before := acc;
        HoldsDirect(m, parentId, member);
        ExtendBranch(m, path, member, parentId);
        acc := acc + {parentId};
        assert acc - (path + {parentId}) == before - path;
        assert Containers(m) - acc < Containers(m) - before by {
          assert parentId in Containers(m) - before;
        }
        var sub := CollectParents(GroupRef(parentId), path + {parentId});
        HoldersPassDown(m, member, parentId);
        if sub.Failure? {
          return Failure(sub.error);
        }
        FinishGroup(m, acc - (path + {parentId}), parentId);
        assert acc - path == acc - (path + {parentId}) + {parentId};
      }
      r := Success(());
    }
  }

  /** Whatever holds a parent of `s` holds `s`. */
  lemma HoldersPassDown(m: Graph, s: Subject, parent: nat)
    requires Membership(parent, s) in m
    ensures forall g :: Holds(m, g, GroupRef(parent)) ==> Holds(m, g, s)
  {
    HoldsDirect(m, parent, s);
    forall g | Holds(m, g, GroupRef(parent)) ensures Holds(m, g, s) {
      HoldsTrans(m, g, parent, s);
    }
  }

  /** Every group id the user transitively belongs to, or the reason there is none. */
  method ResolveUserGroups(users: set<nat>, m: Graph, userId: nat)
    returns (r: Result<set<nat>, AccountError>)
    ensures r == Failure(UserNotFound) <==> userId !in users
    ensures userId in users ==> (r.Failure? <==> CycleAbove(m, UserRef(userId)))
    ensures r.Success? ==> forall g :: g in r.value <==> Holds(m, g, UserRef(userId))
    ensures r.Failure? && userId in users ==>
              && r.error.GroupCycle?
              && Holds(m, r.error.groupId, UserRef(userId)) && OnCycle(m, r.error.groupId)
  {
    if userId !in users {
      return Failure(UserNotFound);
    }
    var resolver := new Resolver(m);
    var outcome := resolver.CollectParents(UserRef(userId), {});
    if outcome.Failure? {
      return Failure(outcome.error);
    }
    ghost var b := resolver.acc;
    assert b - {} == b;
    forall g | Holds(m, g, UserRef(userId)) ensures g in b {
      HoldersInside(m, b, UserRef(userId), g);
    }
    r := Success(resolver.acc);
  }

  /** Adds the children of `current` that are not known yet to the known set and the frontier. */
  method ExpandChildren(m: Graph, current: nat, known: set<nat>, frontier: seq<nat>)
    returns (descendants: set<nat>, frontier': seq<nat>)
    ensures descendants == known + Children(m, current)
    ensures forall x :: x in frontier' <==> x in frontier || x in descendants - known
    ensures descendants == known ==> frontier' == frontier
  {
    descendants, frontier' := known, frontier;
    var rows := AnyOrder(Children(m, current));
    for i := 0 to |rows|
      invariant forall x :: x in descendants <==> x in known || x in rows[..i]
      invariant forall x :: x in frontier' <==> x in frontier || (x in descendants && x !in known)
      invariant descendants == known ==> frontier' == frontier
      invariant known <= descendants
    {
      var childId := rows[i];
      assert rows[..i + 1] == rows[..i] + [childId];
      if childId in descendants {
        continue;
      }
      descendants := descendants + {childId};
      frontier' := frontier' + [childId];
    }
    assert rows[..|rows|] == rows;
  }

  lemma ChildrenAreHeld(m: Graph, top: nat, current: nat)
    requires current == top || Holds(m, top, GroupRef(current))
    ensures forall d :: d in Children(m, current) ==> Holds(m, top, GroupRef(d))
  {
    forall d | d in Children(m, current) ensures Holds(m, top, GroupRef(d)) {
      HoldsDirect(m, current, GroupRef(d));
      if current != top { HoldsTrans(m, top, current, GroupRef(d)); }
    }
  }

  /** Every group that is contained in some group. */
  function NestedGroups(m: Graph): (r: set<nat>)
    ensures forall g :: Children(m, g) <= r
  {
    set e | e in m && e.member.GroupRef? :: e.member.id
  }

  /** The groups contained in `groupId` through one or more edges, by a downward worklist. */
  method GroupDescendants(m: Graph, groupId: nat) returns (descendants: set<nat>)
    ensures forall d :: d in descendants <==> Holds(m, groupId, GroupRef(d))
  {
    descendants := {};
    var frontier := [groupId];
    while frontier != []
      invariant descendants <= NestedGroups(m)
      invariant forall d :: d in descendants ==> Holds(m, groupId, GroupRef(d))
      invariant forall x :: x in frontier ==> x == groupId || x in descendants
      invariant forall x :: (x == groupId || x in descendants) && x !in frontier ==> Children(m, x) <= descendants
      decreases NestedGroups(m) - descendants, |frontier|
    {
      var current := frontier[|frontier| - 1];
      var rest := frontier[..|frontier| - 1];
      assert frontier == rest + [current];
      ghost var known := descendants;
      ChildrenAreHeld(m, groupId, current);
      descendants, frontier := ExpandChildren(m, current, descendants, rest);
      assert descendants != known ==> NestedGroups(m) - descendants < NestedGroups(m) - known by {
        if d :| d in descendants && d !in known { assert d in NestedGroups(m) - known; }
      }
    }
    forall d | Holds(m, groupId, GroupRef(d)) ensures d in descendants {
      var p :| ClimbsTo(m, GroupRef(d), p, groupId);
      DescentStaysInside(m, descendants, groupId, GroupRef(d), p);
    }
  }

  /** A set that contains the children of `top` and of its own members contains all of `top`'s descendants. */
  lemma {:induction false} DescentStaysInside(m: Graph, ds: set<nat>, top: nat, s: Subject, p: seq<nat>)
    requires s.GroupRef? && ClimbsTo(m, s, p, top)
    requires forall x :: x == top || x in ds ==> Children(m, x) <= ds
    ensures s.id in ds
    decreases |p|
  {
    if |p| > 1 {
      assert ClimbsTo(m, GroupRef(p[0]), p[1..], top);
      DescentStaysInside(m, ds, top, GroupRef(p[0]), p[1..]);
    }
    assert s.id in Children(m, p[0]);
  }

  /**
   The two walks are dual: the upward walk from a user reports `g` exactly when `g` directly contains
   the user or the downward walk from `g` reports one of the user's direct groups.
   */
  lemma WalksAreDual(m: Graph, u: nat, g: nat, up: set<nat>, down: set<nat>)
    requires forall x :: x in up <==> Holds(m, x, UserRef(u))
    requires forall d :: d in down <==> Holds(m, g, GroupRef(d))
    ensures g in up <==> g in Parents(m, UserRef(u)) || down * Parents(m, UserRef(u)) != {}
  {
    HoldsFirstStep(m, g, UserRef(u));
    if g in up {
      var h :| Membership(h, UserRef(u)) in m && (h == g || Holds(m, g, GroupRef(h)));
      assert h in Parents(m, UserRef(u));
      assert h != g ==> h in down * Parents(m, UserRef(u));
    }
    forall h | h in down * Parents(m, UserRef(u)) ensures g in up {
      assert Membership(h, UserRef(u)) in m && Holds(m, g, GroupRef(h));
    }
  }
}
