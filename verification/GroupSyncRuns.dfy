/**
 The group sync with every store call a step of its own: any number of syncs run interleaved with each other
 and with every other call on the store.
 */
module GroupSyncRuns {
  import opened Prelude
  import opened MembershipGraph
  import opened GroupResolution
  import opened AccountStore
  import opened GroupSync

  /** The next store call of a sync. `left` are the claimed names to join, `ids` the listed groups to look at. */
  datatype Phase =
    | Find(left: seq<string>)                     // get_group_by_name
    | Make(left: seq<string>)                     // create_group
    | FindAgain(left: seq<string>, blocker: nat)  // get_group_by_name, after `blocker` had the name
    | Join(left: seq<string>, group: nat)         // add_member
    | ListGroups                                  // list_parent_group_ids
    | Look(ids: seq<nat>)                         // get_group_by_id
    | Drop(ids: seq<nat>)                         // remove_member
    | Reconciled
    | Failed(error: AccountError)

  datatype Task = Task(userId: nat, prefix: string, desired: set<string>, phase: Phase)

  datatype World = World(store: Store, tasks: seq<Task>)

  datatype Action =
    | Begin(userId: nat, claimed: seq<string>, prefix: string, names: seq<string>)  // the claimed names in some order
    | Advance(task: nat, listing: seq<nat>)                                         // what a listing would return
    | Other(op: Op)

  const INITIAL := World(EMPTY, [])

  // ---------------------------------------------------------------------------
  // Steps
  // ---------------------------------------------------------------------------

  function FirstName(left: seq<string>): Phase {
    if left == [] then ListGroups else Find(left)
  }

  function FirstGroup(ids: seq<nat>): Phase {
    if ids == [] then Reconciled else Look(ids)
  }

  ghost function GroupNamed(s: Store, name: string): nat
    requires GroupNameExists(s, name)
  {
    var g :| g in s.groups && s.groups[g] == name; g
  }

  ghost predicate Lists<T(!new)>(order: seq<T>, items: set<T>) {
    && (forall x :: x in order <==> x in items)
    && (forall i, j :: 0 <= i < j < |order| ==> order[i] != order[j])
  }

  ghost function MakeGroup(s: Store, left: seq<string>): (Store, Phase)
    requires left != []
  {
    var (s', r) := Apply(s, CreateGroup(left[0]));
    if r.Success? then (s', Join(left, r.value.id))
    else if r.error.GroupNameTaken? && GroupNameExists(s, Strip(left[0]))
    then (s, FindAgain(left, GroupNamed(s, Strip(left[0]))))
    else (s, Failed(r.error))
  }

  ghost function JoinGroup(s: Store, userId: nat, left: seq<string>, group: nat): (Store, Phase)
    requires left != []
  {
    var (s', r) := Apply(s, AddMember(group, UserRef(userId)));
    if r.Success? || r.error == DuplicateMembership then (s', FirstName(left[1..])) else (s, Failed(r.error))
  }

  ghost function LookAt(s: Store, t: Task, ids: seq<nat>): Phase
    requires ids != []
  {
    if ids[0] !in s.groups then Failed(GroupNotFound)
    else if t.prefix <= s.groups[ids[0]] && s.groups[ids[0]] !in t.desired then Drop(ids)
    else FirstGroup(ids[1..])
  }

  /** One store call of a sync. */
  ghost function AdvanceOne(s: Store, t: Task, order: seq<nat>): (Store, Phase) {
    match t.phase
    case Find(left) =>
      if left == [] then (s, ListGroups)
      else if GroupNameExists(s, left[0]) then (s, Join(left, GroupNamed(s, left[0])))
      else (s, Make(left))
    case Make(left) => if left == [] then (s, ListGroups) else MakeGroup(s, left)
    case FindAgain(left, _) =>
      if left == [] then (s, ListGroups)
      else if GroupNameExists(s, left[0]) then (s, Join(left, GroupNamed(s, left[0])))
      else (s, Failed(GroupNotFound))
    case Join(left, group) => if left == [] then (s, ListGroups) else JoinGroup(s, t.userId, left, group)
    case ListGroups => (s, if Lists(order, Parents(s.memberships, UserRef(t.userId)))
        then FirstGroup(order) else ListGroups)
    case Look(ids) => (s, if ids == [] then Reconciled else LookAt(s, t, ids))
    case Drop(ids) =>
      if ids == [] then (s, Reconciled) else (Apply(s, RemoveMember(ids[0], UserRef(t.userId))).0, FirstGroup(ids[1..]))
    case _ => (s, t.phase)
  }

  ghost function Step(w: World, a: Action): World {
    match a
    case Begin(userId, claimed, prefix, order) =>
      if !Lists(order, Desired(claimed, prefix)) then w
      else w.(tasks := w.tasks + [Task(userId, prefix, Desired(claimed, prefix), FirstName(order))])
    case Advance(k, order) =>
      if k >= |w.tasks| then w
      else
        var (s', phase) := AdvanceOne(w.store, w.tasks[k], order);
        World(s', w.tasks[k := w.tasks[k].(phase := phase)])
    case Other(op) => w.(store := Apply(w.store, op).0)
  }

  ghost function Run(w: World, actions: seq<Action>): World
    decreases actions
  {
    if actions == [] then w else Run(Step(w, actions[0]), actions[1..])
  }

  // ---------------------------------------------------------------------------
  // The invariant of every run
  // ---------------------------------------------------------------------------

  /** Group ids are never reused and groups are never renamed. */
  ghost predicate Ages(s: Store, s': Store) {
    && s.lastGroupId <= s'.lastGroupId
    && forall g :: g <= s.lastGroupId && g in s'.groups ==> g in s.groups && s'.groups[g] == s.groups[g]
  }

  lemma CallAges(s: Store, op: Op)
    ensures Ages(s, Apply(s, op).0)
  {
  }

  /** The group once found for `name`: it has been allocated, and if it is still there it has the stripped name. */
  ghost predicate WasFound(s: Store, g: nat, name: string) {
    g <= s.lastGroupId && (g in s.groups ==> s.groups[g] == Strip(name))
  }

  ghost predicate NamesClaimed(left: seq<string>, desired: set<string>) {
    left != [] && forall n :: n in left ==> n in desired
  }

  ghost predicate TaskSound(s: Store, t: Task) {
    match t.phase
    case Find(left) => NamesClaimed(left, t.desired)
    case Make(left) => NamesClaimed(left, t.desired)
    case FindAgain(left, b) => NamesClaimed(left, t.desired) && WasFound(s, b, left[0])
    case Join(left, g) => NamesClaimed(left, t.desired) && WasFound(s, g, left[0])
    case Look(ids) => ids != [] && forall g :: g in ids ==> g <= s.lastGroupId
    case Drop(ids) =>
      && ids != [] && (forall g :: g in ids ==> g <= s.lastGroupId)
      && (ids[0] in s.groups ==> t.prefix <= s.groups[ids[0]] && s.groups[ids[0]] !in t.desired)
    case _ => true
  }

  ghost predicate Sound(w: World) {
    Consistent(w.store) && forall t :: t in w.tasks ==> TaskSound(w.store, t)
  }

  lemma AgingKeepsTask(s: Store, s': Store, t: Task)
    requires TaskSound(s, t) && Ages(s, s')
    ensures TaskSound(s', t)
  {
    if t.phase.Drop? { assert t.phase.ids[0] in t.phase.ids; }
  }

  lemma StoredNameIsStripped(s: Store, name: string)
    requires NamesUnique(s) && GroupNameExists(s, name)
    ensures Strip(name) == name
  {
    StripTrims(name);
  }

  lemma AdvanceAges(s: Store, t: Task, order: seq<nat>)
    ensures Ages(s, AdvanceOne(s, t, order).0)
  {
  }

  lemma AdvanceKeepsConsistent(s: Store, t: Task, order: seq<nat>)
    requires Consistent(s)
    ensures Consistent(AdvanceOne(s, t, order).0)
  {
    match t.phase
    case Make(left) => if left != [] { StepKeepsConsistent(s, CreateGroup(left[0])); }
    case Join(left, g) => StepKeepsConsistent(s, AddMember(g, UserRef(t.userId)));
    case Drop(ids) => if ids != [] { StepKeepsConsistent(s, RemoveMember(ids[0], UserRef(t.userId))); }
    case _ =>
  }

  lemma NextNameSound(s: Store, t: Task, left: seq<string>)
    requires NamesClaimed(left, t.desired)
    ensures TaskSound(s, t.(phase := FirstName(left[1..])))
  {
  }

  lemma NextGroupSound(s: Store, t: Task, ids: seq<nat>)
    requires forall g :: g in ids ==> g <= s.lastGroupId
    ensures TaskSound(s, t.(phase := FirstGroup(ids)))
    ensures (ids != [] ==> TaskSound(s, t.(phase := FirstGroup(ids[1..]))))
  {
    if ids != [] {
      forall g | g in ids[1..] ensures g in ids {}
    }
  }

  /** The names part of a sync: phases up to the joins. */
  lemma NameStepSound(s: Store, t: Task, order: seq<nat>)
    requires IdsAllocated(s) && NamesUnique(s) && TaskSound(s, t)
    requires t.phase.Find? || t.phase.Make? || t.phase.FindAgain? || t.phase.Join?
    ensures var (s', phase) := AdvanceOne(s, t, order); TaskSound(s', t.(phase := phase))
  {
    var left := t.phase.left;
    if (t.phase.Find? || t.phase.FindAgain?) && GroupNameExists(s, left[0]) { StoredNameIsStripped(s, left[0]); }
    if t.phase.Join? { NextNameSound(AdvanceOne(s, t, order).0, t, left); }
  }

  /** The groups part: the listing, the lookups and the removals. */
  lemma GroupStepSound(s: Store, t: Task, order: seq<nat>)
    requires IdsAllocated(s) && EdgesClosed(s) && TaskSound(s, t)
    requires t.phase.ListGroups? || t.phase.Look? || t.phase.Drop?
    ensures var (s', phase) := AdvanceOne(s, t, order); TaskSound(s', t.(phase := phase))
  {
    match t.phase
    case ListGroups =>
      if Lists(order, Parents(s.memberships, UserRef(t.userId))) {
        forall g | g in order ensures g <= s.lastGroupId { assert Membership(g, UserRef(t.userId)) in s.memberships; }
        NextGroupSound(s, t, order);
      }
    case Look(ids) => NextGroupSound(s, t, ids);
    case Drop(ids) => NextGroupSound(AdvanceOne(s, t, order).0, t, ids);
    case _ =>
  }

  lemma AdvanceKeepsTask(s: Store, t: Task, order: seq<nat>)
    requires Consistent(s) && TaskSound(s, t)
    ensures var (s', phase) := AdvanceOne(s, t, order); TaskSound(s', t.(phase := phase))
  {
    match t.phase
    case Reconciled =>
    case Failed(_) =>
    case ListGroups => GroupStepSound(s, t, order);
    case Look(_) => GroupStepSound(s, t, order);
    case Drop(_) => GroupStepSound(s, t, order);
    case _ => NameStepSound(s, t, order);
  }

  lemma AdvanceKeepsSound(w: World, k: nat, order: seq<nat>)
    requires Sound(w) && k < |w.tasks|
    ensures Sound(Step(w, Advance(k, order)))
  {
    var w' := Step(w, Advance(k, order));
    var t := w.tasks[k];
    assert t in w.tasks;
    AdvanceKeepsConsistent(w.store, t, order);
    AdvanceAges(w.store, t, order);
    forall x | x in w'.tasks ensures TaskSound(w'.store, x) {
      if x in w.tasks { AgingKeepsTask(w.store, w'.store, x); } else { AdvanceKeepsTask(w.store, t, order); }
    }
  }

  lemma StepKeepsSound(w: World, a: Action)
    requires Sound(w)
    ensures Sound(Step(w, a))
  {
    match a
    case Begin(_, claimed, prefix, order) =>
    case Advance(k, order) => if k < |w.tasks| { AdvanceKeepsSound(w, k, order); }
    case Other(op) =>
      StepKeepsConsistent(w.store, op);
      CallAges(w.store, op);
      forall t | t in w.tasks ensures TaskSound(Apply(w.store, op).0, t) {
        AgingKeepsTask(w.store, Apply(w.store, op).0, t);
      }
  }

  lemma {:induction false} RunKeepsSound(w: World, actions: seq<Action>)
    requires Sound(w)
    ensures Sound(Run(w, actions))
    decreases actions
  {
    if actions != [] {
      StepKeepsSound(w, actions[0]);
      RunKeepsSound(Step(w, actions[0]), actions[1..]);
    }
  }

  lemma InitialIsSound()
    ensures Sound(INITIAL)
  {
    EmptyIsConsistent();
  }

  // ---------------------------------------------------------------------------
  // What a sync touches
  // ---------------------------------------------------------------------------

  ghost predicate CreatedOne(s: Store, s': Store, t: Task) {
    exists n :: n in t.desired
                && s' == s.(groups := s.groups[s.lastGroupId + 1 := Strip(n)], lastGroupId := s.lastGroupId + 1)
  }

  ghost predicate JoinedOne(s: Store, s': Store, t: Task) {
    exists n, g :: n in t.desired && g in s.groups && s.groups[g] == Strip(n)
                   && s' == s.(memberships := s.memberships + {Membership(g, UserRef(t.userId))})
  }

  ghost predicate LeftOne(s: Store, s': Store, t: Task) {
    exists g :: g in s.groups && t.prefix <= s.groups[g] && s.groups[g] !in t.desired
                && s' == s.(memberships := s.memberships - {Membership(g, UserRef(t.userId))})
  }

  /**
   In every run a call of a sync changes the store in three ways only: it creates one group under a claimed
   name, adds the user to one group of a claimed name, or takes the user out of one unclaimed prefix group.
   */
  lemma SyncTouchesOnly(actions: seq<Action>, k: nat, listing: seq<nat>)
    requires k < |Run(INITIAL, actions).tasks|
    ensures var w := Run(INITIAL, actions); var s' := Step(w, Advance(k, listing)).store;
            s' == w.store || CreatedOne(w.store, s', w.tasks[k]) || JoinedOne(w.store, s', w.tasks[k])
                || LeftOne(w.store, s', w.tasks[k])
  {
    var w := Run(INITIAL, actions);
    InitialIsSound();
    RunKeepsSound(INITIAL, actions);
    assert w.tasks[k] in w.tasks;
    AdvanceTouchesOnly(w.store, w.tasks[k], listing);
  }

  lemma AdvanceTouchesOnly(s: Store, t: Task, listing: seq<nat>)
    requires EdgesClosed(s) && TaskSound(s, t)
    ensures var s' := AdvanceOne(s, t, listing).0;
            s' == s || CreatedOne(s, s', t) || JoinedOne(s, s', t) || LeftOne(s, s', t)
  {
    match t.phase
    case Make(left) => assert left[0] in left;
    case Join(left, g) => assert left[0] in left;
    case Drop(ids) =>
    case _ =>
  }

  // ---------------------------------------------------------------------------
  // Exactly when a sync fails
  // ---------------------------------------------------------------------------

  /**
   The next call raises: the claimed name is blank; or it is not stored as claimed, or the group that had it
   was deleted; or the group found for it was deleted, or there is no such user; or a listed group was deleted.
   */
  ghost predicate Doomed(s: Store, t: Task) {
    match t.phase
    case Make(left) => left != [] && Strip(left[0]) == ""
    case FindAgain(left, b) => left != [] && (!Trimmed(left[0]) || (Retired(s, b) && !GroupNameExists(s, left[0])))
    case Join(left, g) => left != [] && (Retired(s, g) || t.userId !in s.users)
    case Look(ids) => ids != [] && Retired(s, ids[0])
    case _ => false
  }

  lemma SyncFailsExactlyWhen(actions: seq<Action>, k: nat, listing: seq<nat>)
    requires var w := Run(INITIAL, actions); k < |w.tasks| && !w.tasks[k].phase.Failed?
    ensures var w := Run(INITIAL, actions);
            Step(w, Advance(k, listing)).tasks[k].phase.Failed? <==> Doomed(w.store, w.tasks[k])
  {
    var w := Run(INITIAL, actions);
    InitialIsSound();
    RunKeepsSound(INITIAL, actions);
    assert w.tasks[k] in w.tasks;
    AdvanceFails(w.store, w.tasks[k], listing);
  }

  lemma AdvanceFails(s: Store, t: Task, listing: seq<nat>)
    requires NamesUnique(s) && TaskSound(s, t) && !t.phase.Failed?
    ensures AdvanceOne(s, t, listing).1.Failed? <==> Doomed(s, t)
  {
    match t.phase
    case FindAgain(left, b) =>
      StripTrims(left[0]);
      if GroupNameExists(s, left[0]) { StoredNameIsStripped(s, left[0]); }
    case Look(ids) => assert ids[0] in ids;
    case _ =>
  }

  /** A group is there when a sync finds or lists it: one that is gone at the next call was deleted in between. */
  lemma FoundIsThere(s: Store, t: Task, listing: seq<nat>)
    requires EdgesClosed(s)
    ensures var (s', p) := AdvanceOne(s, t, listing);
            && (p.Join? && !t.phase.Join? ==> p.group in s'.groups)
            && (p.FindAgain? && !t.phase.FindAgain? ==> p.blocker in s'.groups)
            && (t.phase.ListGroups? && p.Look? ==> forall g :: g in p.ids ==> g in s'.groups)
  {
    if t.phase.ListGroups? && Lists(listing, Parents(s.memberships, UserRef(t.userId))) {
      forall g | g in listing ensures g in s.groups { assert Membership(g, UserRef(t.userId)) in s.memberships; }
    }
  }

  // ---------------------------------------------------------------------------
  // Exact when nobody else touches the same groups and edges
  // ---------------------------------------------------------------------------

  /** The groups the next calls of a sync depend on. */
  ghost predicate DependsOn(p: Phase, g: nat) {
    match p
    case FindAgain(_, b) => g == b
    case Join(_, group) => g == group
    case Look(ids) => g in ids
    case Drop(ids) => g in ids
    case _ => false
  }

  /** A step of somebody else keeps the prefix groups, those the sync depends on, and the user's edges in the former. */
  ghost predicate LeavesAlone(t: Task, s: Store, s': Store) {
    && (forall g :: g in s.groups && (t.prefix <= s.groups[g] || DependsOn(t.phase, g)) ==>
          g in s'.groups && s'.groups[g] == s.groups[g])
    && (forall g :: g in s'.groups && t.prefix <= s'.groups[g] ==>
          (Membership(g, UserRef(t.userId)) in s'.memberships <==>
             g in s.groups && Membership(g, UserRef(t.userId)) in s.memberships))
    && (t.userId in s.users ==> t.userId in s'.users)
  }

  /** The user is in the group of that name. */
  ghost predicate IsMember(s: Store, t: Task, name: string) {
    exists g :: g in s.groups && s.groups[g] == name && Membership(g, UserRef(t.userId)) in s.memberships
  }

  ghost predicate JoinedBut(s: Store, t: Task, left: seq<string>) {
    forall n :: n in t.desired && n !in left ==> IsMember(s, t, n)
  }

  /** The user's unclaimed prefix groups are among those still to be looked at. */
  ghost predicate RestListed(s: Store, t: Task, ids: seq<nat>) {
    && (forall g :: g in ids ==> g in s.groups)
    && (forall g :: IsUnclaimed(s, t, g) ==> g in ids)
  }

  ghost predicate IsUnclaimed(s: Store, t: Task, g: nat) {
    && g in s.groups && Membership(g, UserRef(t.userId)) in s.memberships
    && t.prefix <= s.groups[g] && s.groups[g] !in t.desired
  }

  lemma OthersKeepUnclaimed(s: Store, s': Store, t: Task)
    requires LeavesAlone(t, s, s') && Ages(s, s') && IdsAllocated(s)
    ensures forall g :: IsUnclaimed(s', t, g) ==> IsUnclaimed(s, t, g)
  {
  }

  /** The sync is on its way to the exact result. */
  ghost predicate OnCourse(s: Store, t: Task) {
    && Storable(t.desired) && (t.desired != {} ==> t.userId in s.users)
    && (forall n :: n in t.desired ==> t.prefix <= n)
    && match t.phase
       case Find(left) => NamesClaimed(left, t.desired) && JoinedBut(s, t, left)
       case Make(left) => NamesClaimed(left, t.desired) && JoinedBut(s, t, left)
       case FindAgain(left, b) => NamesClaimed(left, t.desired) && JoinedBut(s, t, left) && b in s.groups
           && s.groups[b] == left[0]
       case Join(left, g) => NamesClaimed(left, t.desired) && JoinedBut(s, t, left) && g in s.groups
           && s.groups[g] == left[0]
       case ListGroups => JoinedBut(s, t, [])
       case Look(ids) => ids != [] && JoinedBut(s, t, []) && RestListed(s, t, ids)
       case Drop(ids) =>
         && ids != [] && JoinedBut(s, t, []) && RestListed(s, t, ids)
         && t.prefix <= s.groups[ids[0]] && s.groups[ids[0]] !in t.desired
       case Reconciled => JoinedBut(s, t, []) && RestListed(s, t, [])
       case Failed(_) => false
  }

  lemma OthersKeepMembers(s: Store, s': Store, t: Task, left: seq<string>)
    requires LeavesAlone(t, s, s') && JoinedBut(s, t, left) && forall n :: n in t.desired ==> t.prefix <= n
    ensures JoinedBut(s', t, left)
  {
    forall n | n in t.desired && n !in left ensures IsMember(s', t, n) {
      var g :| g in s.groups && s.groups[g] == n && Membership(g, UserRef(t.userId)) in s.memberships;
      assert g in s'.groups && s'.groups[g] == n;
    }
  }

  lemma OthersKeepCourse(s: Store, s': Store, t: Task)
    requires OnCourse(s, t) && LeavesAlone(t, s, s') && Ages(s, s') && IdsAllocated(s)
    ensures OnCourse(s', t)
  {
    OthersKeepUnclaimed(s, s', t);
    match t.phase
    case Find(left) => OthersKeepMembers(s, s', t, left);
    case Make(left) => OthersKeepMembers(s, s', t, left);
    case FindAgain(left, _) => OthersKeepMembers(s, s', t, left);
    case Join(left, _) => OthersKeepMembers(s, s', t, left);
    case Drop(ids) =>
      OthersKeepMembers(s, s', t, []);
      assert ids[0] in ids;
    case _ => OthersKeepMembers(s, s', t, []);
  }

  lemma MakeKeepsCourse(s: Store, t: Task, listing: seq<nat>)
    requires OnCourse(s, t) && t.phase.Make? && IdsAllocated(s)
    ensures var (s', p) := AdvanceOne(s, t, listing); OnCourse(s', t.(phase := p))
  {
    var left := t.phase.left;
    var (s', p) := AdvanceOne(s, t, listing);
    assert left[0] in left;
    StripTrims(left[0]);
    forall n | n in t.desired && n !in left ensures IsMember(s', t, n) {
      var g :| g in s.groups && s.groups[g] == n && Membership(g, UserRef(t.userId)) in s.memberships;
      assert g in s'.groups && s'.groups[g] == n;
    }
  }

  lemma JoinKeepsCourse(s: Store, t: Task, listing: seq<nat>)
    requires OnCourse(s, t) && t.phase.Join?
    ensures var (s', p) := AdvanceOne(s, t, listing); OnCourse(s', t.(phase := p))
  {
    var left, g := t.phase.left, t.phase.group;
    var (s', p) := AdvanceOne(s, t, listing);
    assert left[0] in left;
    assert s'.groups == s.groups && s'.memberships == s.memberships + {Membership(g, UserRef(t.userId))};
    forall n | n in t.desired && n !in left[1..] ensures IsMember(s', t, n) {
      if n == left[0] {
        assert s'.groups[g] == n;
      } else {
        assert n !in left;
        var h :| h in s.groups && s.groups[h] == n && Membership(h, UserRef(t.userId)) in s.memberships;
      }
    }
  }

  lemma ListKeepsCourse(s: Store, t: Task, listing: seq<nat>)
    requires OnCourse(s, t) && t.phase.ListGroups? && EdgesClosed(s)
    ensures var (s', p) := AdvanceOne(s, t, listing); OnCourse(s', t.(phase := p))
  {
    if Lists(listing, Parents(s.memberships, UserRef(t.userId))) {
      forall g | g in listing ensures g in s.groups { assert Membership(g, UserRef(t.userId)) in s.memberships; }
    }
  }

  lemma LookKeepsCourse(s: Store, t: Task, listing: seq<nat>)
    requires OnCourse(s, t) && t.phase.Look?
    ensures var (s', p) := AdvanceOne(s, t, listing); OnCourse(s', t.(phase := p))
  {
    var ids := t.phase.ids;
    assert ids[0] in ids;
    assert forall g :: g in ids ==> g == ids[0] || g in ids[1..];
  }

  lemma DropKeepsCourse(s: Store, t: Task, listing: seq<nat>)
    requires OnCourse(s, t) && t.phase.Drop?
    ensures var (s', p) := AdvanceOne(s, t, listing); OnCourse(s', t.(phase := p))
  {
    var ids := t.phase.ids;
    var (s', p) := AdvanceOne(s, t, listing);
    assert ids[0] in ids;
    assert forall g :: g in ids ==> g == ids[0] || g in ids[1..];
    assert s'.groups == s.groups && s'.memberships == s.memberships - {Membership(ids[0], UserRef(t.userId))};
    forall n | n in t.desired ensures IsMember(s', t, n) {
      assert IsMember(s, t, n);
      var g :| g in s.groups && s.groups[g] == n && Membership(g, UserRef(t.userId)) in s.memberships;
      assert g != ids[0];
    }
  }

  lemma OwnStepKeepsCourse(s: Store, t: Task, listing: seq<nat>)
    requires OnCourse(s, t) && Consistent(s)
    ensures var (s', p) := AdvanceOne(s, t, listing); OnCourse(s', t.(phase := p))
  {
    match t.phase
    case Find(_) =>
    case Make(_) => MakeKeepsCourse(s, t, listing);
    case FindAgain(_, _) =>
    case Join(_, _) => JoinKeepsCourse(s, t, listing);
    case ListGroups => ListKeepsCourse(s, t, listing);
    case Look(_) => LookKeepsCourse(s, t, listing);
    case Drop(_) => DropKeepsCourse(s, t, listing);
    case Reconciled =>
  }

  /** Every step that is not one of task k leaves its groups and edges alone. */
  ghost predicate Undisturbed(w: World, actions: seq<Action>, k: nat)
    decreases actions
  {
    k < |w.tasks| &&
    (actions != [] ==>
       && ((actions[0].Advance? && actions[0].task == k) || LeavesAlone(w.tasks[k], w.store, Step(w, actions[0]).store))
       && Undisturbed(Step(w, actions[0]), actions[1..], k))
  }

  lemma StepKeepsCourse(w: World, a: Action, k: nat)
    requires Sound(w) && k < |w.tasks| && OnCourse(w.store, w.tasks[k])
    requires (a.Advance? && a.task == k) || LeavesAlone(w.tasks[k], w.store, Step(w, a).store)
    ensures var w' := Step(w, a);
            k < |w'.tasks| && OnCourse(w'.store, w'.tasks[k]) && w'.tasks[k] == w.tasks[k].(phase := w'.tasks[k].phase)
  {
    if a.Advance? && a.task == k {
      OwnStepKeepsCourse(w.store, w.tasks[k], a.listing);
    } else {
      StepAges(w, a);
      OthersKeepCourse(w.store, Step(w, a).store, w.tasks[k]);
    }
  }

  lemma StepAges(w: World, a: Action)
    ensures Ages(w.store, Step(w, a).store)
  {
    match a
    case Begin(_, _, _, _) =>
    case Advance(k, listing) => if k < |w.tasks| { AdvanceAges(w.store, w.tasks[k], listing); }
    case Other(op) => CallAges(w.store, op);
  }

  lemma {:induction false} RunKeepsCourse(w: World, actions: seq<Action>, k: nat)
    requires Sound(w) && Undisturbed(w, actions, k) && OnCourse(w.store, w.tasks[k])
    ensures var w' := Run(w, actions);
            k < |w'.tasks| && OnCourse(w'.store, w'.tasks[k]) && w'.tasks[k] == w.tasks[k].(phase := w'.tasks[k].phase)
    decreases actions
  {
    if actions != [] {
      StepKeepsCourse(w, actions[0], k);
      StepKeepsSound(w, actions[0]);
      RunKeepsCourse(Step(w, actions[0]), actions[1..], k);
    }
  }

  lemma OnCourseIsExact(s: Store, t: Task)
    requires OnCourse(s, t) && t.phase.Reconciled?
    ensures DirectPrefixNames(s, t.userId, t.prefix) == t.desired
  {
    forall n | n in t.desired ensures n in DirectPrefixNames(s, t.userId, t.prefix) { assert IsMember(s, t, n); }
    forall g | g in s.groups && Membership(g, UserRef(t.userId)) in s.memberships && t.prefix <= s.groups[g]
      ensures s.groups[g] in t.desired
    {
      assert !IsUnclaimed(s, t, g);
    }
  }

  /**
   In every run: a sync that begins for an existing user with storable names, and whose groups and edges
   nobody else touches from then on, does not fail, and when it is done the user is in exactly the claimed
   prefix groups.
   */
  lemma UndisturbedSyncIsExact(before: seq<Action>, userId: nat, claimed: seq<string>, prefix: string,
                               names: seq<string>, after: seq<Action>)
    requires var desired := Desired(claimed, prefix);
             Storable(desired) && Lists(names, desired)
                 && (desired != {} ==> userId in Run(INITIAL, before).store.users)
    requires var w := Run(INITIAL, before);
             Undisturbed(Step(w, Begin(userId, claimed, prefix, names)), after, |w.tasks|)
    ensures var w := Run(INITIAL, before); var k := |w.tasks|;
            var w' := Run(Step(w, Begin(userId, claimed, prefix, names)), after);
            && k < |w'.tasks| && !w'.tasks[k].phase.Failed?
            && (w'.tasks[k].phase.Reconciled? ==>
                  forall n :: n in DirectPrefixNames(w'.store, userId, prefix) <==> n in claimed && prefix <= n)
  {
    var w := Run(INITIAL, before);
    var k := |w.tasks|;
    var started := Step(w, Begin(userId, claimed, prefix, names));
    InitialIsSound();
    RunKeepsSound(INITIAL, before);
    StepKeepsSound(w, Begin(userId, claimed, prefix, names));
    assert OnCourse(started.store, started.tasks[k]);
    RunKeepsCourse(started, after, k);
    var w' := Run(started, after);
    if w'.tasks[k].phase.Reconciled? { OnCourseIsExact(w'.store, w'.tasks[k]); }
  }

  // ---------------------------------------------------------------------------
  // And it gets there
  // ---------------------------------------------------------------------------

  function Stage(p: Phase): nat {
    match p
    case Find(_) => 2
    case Make(_) => 2
    case FindAgain(_, _) => 2
    case Join(_, _) => 2
    case ListGroups => 1
    case _ => 0
  }

  /** What is left to do within a stage. */
  function Work(p: Phase): nat {
    match p
    case Find(left) => 4 * |left| + 3
    case Make(left) => 4 * |left| + 2
    case FindAgain(left, _) => 4 * |left| + 1
    case Join(left, _) => 4 * |left|
    case Look(ids) => 2 * |ids| + 1
    case Drop(ids) => 2 * |ids|
    case _ => 0
  }

  lemma {:induction false} AnyListing(items: set<nat>) returns (order: seq<nat>)
    ensures Lists(order, items)
    decreases items
  {
    order := [];
    if x :| x in items {
      var rest := AnyListing(items - {x});
      order := [x] + rest;
      assert forall i :: 0 <= i < |rest| ==> rest[i] in rest;
    }
  }

  /** Every call of a sync on its way brings it nearer to the end. */
  lemma OwnStepAdvances(s: Store, t: Task, listing: seq<nat>)
    requires OnCourse(s, t) && !t.phase.Reconciled?
    requires Lists(listing, Parents(s.memberships, UserRef(t.userId)))
    ensures var p := AdvanceOne(s, t, listing).1;
            !p.Failed? ==> Stage(p) < Stage(t.phase) || (Stage(p) == Stage(t.phase) && Work(p) < Work(t.phase))
  {
  }

  ghost predicate OnlyOf(actions: seq<Action>, k: nat) {
    forall a :: a in actions ==> a.Advance? && a.task == k
  }

  lemma {:induction false} CourseCompletes(w: World, k: nat) returns (actions: seq<Action>)
    requires Sound(w) && k < |w.tasks| && OnCourse(w.store, w.tasks[k])
    ensures OnlyOf(actions, k)
    ensures var w' := Run(w, actions);
            && k < |w'.tasks| && w'.tasks[k] == w.tasks[k].(phase := Reconciled)
            && OnCourse(w'.store, w'.tasks[k])
    decreases Stage(w.tasks[k].phase), Work(w.tasks[k].phase)
  {
    if w.tasks[k].phase.Reconciled? {
      return [];
    }
    var listing := AnyListing(Parents(w.store.memberships, UserRef(w.tasks[k].userId)));
    var a := Advance(k, listing);
    OwnStepAdvances(w.store, w.tasks[k], listing);
    StepKeepsCourse(w, a, k);
    StepKeepsSound(w, a);
    var rest := CourseCompletes(Step(w, a), k);
    actions := [a] + rest;
    assert actions[1..] == rest;
  }

  /**
   In every run: however far such a sync has come when nobody else touches its groups and edges, its own
   calls bring it to the end, and then the user is in exactly the claimed prefix groups.
   */
  lemma UndisturbedSyncCompletes(before: seq<Action>, userId: nat, claimed: seq<string>, prefix: string,
                                 names: seq<string>, after: seq<Action>)
    returns (rest: seq<Action>)
    requires var desired := Desired(claimed, prefix);
             Storable(desired) && Lists(names, desired)
                 && (desired != {} ==> userId in Run(INITIAL, before).store.users)
    requires var w := Run(INITIAL, before);
             Undisturbed(Step(w, Begin(userId, claimed, prefix, names)), after, |w.tasks|)
    ensures OnlyOf(rest, |Run(INITIAL, before).tasks|)
    ensures var w := Run(INITIAL, before); var k := |w.tasks|;
            var w' := Run(Run(Step(w, Begin(userId, claimed, prefix, names)), after), rest);
            && k < |w'.tasks| && w'.tasks[k].phase.Reconciled?
            && forall n :: n in DirectPrefixNames(w'.store, userId, prefix) <==> n in claimed && prefix <= n
  {
    var w := Run(INITIAL, before);
    var k := |w.tasks|;
    var started := Step(w, Begin(userId, claimed, prefix, names));
    InitialIsSound();
    RunKeepsSound(INITIAL, before);
    StepKeepsSound(w, Begin(userId, claimed, prefix, names));
    RunKeepsSound(started, after);
    assert OnCourse(started.store, started.tasks[k]);
    RunKeepsCourse(started, after, k);
    rest := CourseCompletes(Run(started, after), k);
    var w' := Run(Run(started, after), rest);
    OnCourseIsExact(w'.store, w'.tasks[k]);
  }

  // ---------------------------------------------------------------------------
  // A run in which a lookup fails
  // ---------------------------------------------------------------------------

  ghost predicate Reachable(w: World) {
    exists actions :: w == Run(INITIAL, actions)
  }

  lemma {:induction false} RunSnoc(w: World, actions: seq<Action>, a: Action)
    ensures Run(w, actions + [a]) == Step(Run(w, actions), a)
    decreases actions
  {
    if actions == [] {
      assert (actions + [a])[1..] == [];
    } else {
      RunSnoc(Step(w, actions[0]), actions[1..], a);
      assert (actions + [a])[1..] == actions[1..] + [a];
    }
  }

  lemma ReachNext(w: World, a: Action)
    requires Reachable(w)
    ensures Reachable(Step(w, a))
  {
    var actions :| w == Run(INITIAL, actions);
    RunSnoc(INITIAL, actions, a);
  }

  /** A store with one user who is in one group. */
  function Small(user: UserRow, name: string): Store {
    Store(map[1 := user], 1, map[1 := name], 1, {Membership(1, UserRef(1))}, map[])
  }

  lemma ReachSmall(username: string, name: string) returns (user: UserRow)
    requires username != "" && Trimmed(username) && name != "" && Trimmed(name)
    ensures Reachable(World(Small(user, name), []))
  {
    StripTrims(username);
    StripTrims(name);
    user := UserRow(username, None, [1]);
    assert Run(INITIAL, []) == INITIAL;
    ReachNext(INITIAL, Other(CreateUser(username, [1], None)));
    var w1 := Step(INITIAL, Other(CreateUser(username, [1], None)));
    assert w1.store == EMPTY.(users := map[1 := user], lastUserId := 1);
    ReachNext(w1, Other(CreateGroup(name)));
    var w2 := Step(w1, Other(CreateGroup(name)));
    assert w2.store == w1.store.(groups := map[1 := name], lastGroupId := 1);
    ReachNext(w2, Other(AddMember(1, UserRef(1))));
    assert Step(w2, Other(AddMember(1, UserRef(1)))).store == Small(user, name);
  }

  /** A group is deleted between the listing and the lookup: the sync fails, although nothing was claimed. */
  lemma DeletedGroupFailsTheSync(username: string, name: string, prefix: string)
    requires username != "" && Trimmed(username) && name != "" && Trimmed(name)
    ensures exists w :: Reachable(w) && |w.tasks| == 1 && w.tasks[0].desired == {} && w.tasks[0].phase == Look([1])
                        && Step(w, Advance(0, [])).tasks[0].phase == Failed(GroupNotFound)
  {
    var user := ReachSmall(username, name);
    var s := Small(user, name);
    var w0 := World(s, []);
    assert Desired([], prefix) == {};
    ReachNext(w0, Begin(1, [], prefix, []));
    var w1 := Step(w0, Begin(1, [], prefix, []));
    assert w1.tasks == [Task(1, prefix, {}, ListGroups)];
    ReachNext(w1, Advance(0, [1]));
    var w2 := Step(w1, Advance(0, [1]));
    assert Lists([1], Parents(s.memberships, UserRef(1)));
    assert w2 == World(s, [Task(1, prefix, {}, Look([1]))]);
    ReachNext(w2, Other(DeleteGroup(1)));
    var w3 := Step(w2, Other(DeleteGroup(1)));
    assert 1 !in w3.store.groups && w3.tasks == w2.tasks;
    assert Step(w3, Advance(0, [])).tasks[0].phase == Failed(GroupNotFound);
  }
}
