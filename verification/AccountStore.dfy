/**
 The account store: users, groups, memberships and external identities.
 `Apply` states what each store call does in terms of paths in the membership graph; the class
 executes it with the worklist guard. Every public call is one atomic step.
 */
module AccountStore {
  import opened Prelude
  import opened MembershipGraph
  import opened GroupResolution

  datatype UserRow = UserRow(username: string, email: Option<string>, passwordHash: Bytes)

  datatype ExternalId = ExternalId(provider: string, subject: string)

  /** The four tables, with the AUTOINCREMENT counters of users and groups. */
  datatype Store = Store(
    users: map<nat, UserRow>,
    lastUserId: nat,
    groups: map<nat, string>,
    lastGroupId: nat,
    memberships: Graph,
    identities: map<ExternalId, nat>)

  const EMPTY := Store(map[], 0, map[], 0, {}, map[])

  datatype Op =
    | CreateUser(username: string, passwordHash: Bytes, email: Option<string>)
    | CreateExternalUser(key: ExternalId, username: string, email: Option<string>, sentinel: Bytes)
    | CreateGroup(name: string)
    | DeleteGroup(groupId: nat)
    | AddMember(groupId: nat, member: Subject)
    | RemoveMember(groupId: nat, member: Subject)

  datatype Reply = Created(id: nat) | Done

  type Outcome = Result<Reply, AccountError>

  predicate UsernameExists(s: Store, name: string) {
    exists u | u in s.users :: s.users[u].username == name
  }

  predicate GroupNameExists(s: Store, name: string) {
    exists g | g in s.groups :: s.groups[g] == name
  }

  predicate SubjectExists(s: Store, x: Subject) {
    match x
    case UserRef(u) => u in s.users
    case GroupRef(g) => g in s.groups
  }

  function InsertUser(s: Store, row: UserRow): Store {
    s.(users := s.users[s.lastUserId + 1 := row], lastUserId := s.lastUserId + 1)
  }

  /** The edges that do not mention group `g` at either end. */
  function Without(m: Graph, g: nat): Graph {
    set e | e in m && e.groupId != g && e.member != GroupRef(g)
  }

  ghost function AddMemberError(s: Store, g: nat, x: Subject): Option<AccountError> {
    if g !in s.groups then Some(GroupNotFound)
    else if x.UserRef? && x.id !in s.users then Some(UserNotFound)
    else if x.GroupRef? && x.id !in s.groups then Some(GroupNotFound)
    else if x.GroupRef? && (x.id == g || Holds(s.memberships, x.id, GroupRef(g))) then Some(GroupCycle(g, x.id))
    else if Membership(g, x) in s.memberships then Some(DuplicateMembership)
    else None
  }

  /** The effect and reply of one store call. A failed call changes nothing. */
  ghost function Apply(s: Store, op: Op): (Store, Outcome) {
    match op
    case CreateUser(username, hash, email) =>
      var name := Strip(username);
      if name == "" || hash == [] then (s, Failure(InvalidArgument))
      else if UsernameExists(s, name) then (s, Failure(UsernameTaken(name)))
      else (InsertUser(s, UserRow(name, email, hash)), Success(Created(s.lastUserId + 1)))
    case CreateExternalUser(key, username, email, sentinel) =>
      var name := Strip(username);
      if name == "" || key.provider == "" || key.subject == "" then (s, Failure(InvalidArgument))
      else if UsernameExists(s, name) || key in s.identities then (s, Failure(UsernameTaken(name)))
      else
        (InsertUser(s, UserRow(name, email, sentinel)).(identities := s.identities[key := s.lastUserId + 1]),
         Success(Created(s.lastUserId + 1)))
    case CreateGroup(rawName) =>
      var name := Strip(rawName);
      if name == "" then (s, Failure(InvalidArgument))
      else if GroupNameExists(s, name) then (s, Failure(GroupNameTaken(name)))
      else
        (s.(groups := s.groups[s.lastGroupId + 1 := name], lastGroupId := s.lastGroupId + 1),
         Success(Created(s.lastGroupId + 1)))
    case DeleteGroup(g) =>
      if g !in s.groups then (s, Failure(GroupNotFound))
      else (s.(groups := s.groups - {g}, memberships := Without(s.memberships, g)), Success(Done))
    case AddMember(g, x) =>
      var error := AddMemberError(s, g, x);
      if error.Some? then (s, Failure(error.value))
      else (s.(memberships := s.memberships + {Membership(g, x)}), Success(Done))
    case RemoveMember(g, x) =>
      if Membership(g, x) !in s.memberships then (s, Failure(MembershipNotFound))
      else (s.(memberships := s.memberships - {Membership(g, x)}), Success(Done))
  }

  // ---------------------------------------------------------------------------
  // The invariant of every reachable store
  // ---------------------------------------------------------------------------

  ghost predicate IdsAllocated(s: Store) {
    && (forall u :: u in s.users ==> 1 <= u <= s.lastUserId)
    && (forall g :: g in s.groups ==> 1 <= g <= s.lastGroupId)
  }

  ghost predicate UsernamesUnique(s: Store) {
    forall u, v :: u in s.users && v in s.users && s.users[u].username == s.users[v].username ==> u == v
  }

  /** Group names are unique, non-empty and trimmed. */
  ghost predicate NamesUnique(s: Store) {
    && (forall g, h :: g in s.groups && h in s.groups && s.groups[g] == s.groups[h] ==> g == h)
    && (forall g :: g in s.groups ==> s.groups[g] != "" && Trimmed(s.groups[g]))
  }

  ghost predicate EdgesClosed(s: Store) {
    forall e :: e in s.memberships ==> e.groupId in s.groups && SubjectExists(s, e.member)
  }

  /** Every identity is linked to an existing user and no two identities share one. */
  ghost predicate IdentitiesInjective(s: Store) {
    && (forall k :: k in s.identities ==> s.identities[k] in s.users)
    && (forall k, l :: k in s.identities && l in s.identities && s.identities[k] == s.identities[l] ==> k == l)
  }

  ghost predicate Consistent(s: Store) {
    IdsAllocated(s) && UsernamesUnique(s) && NamesUnique(s) && EdgesClosed(s) && IdentitiesInjective(s)
        && Acyclic(s.memberships)
  }

  lemma EmptyIsConsistent()
    ensures Consistent(EMPTY)
  {
    forall g ensures !OnCycle(EMPTY.memberships, g) {
      assert forall p :: !ClimbsTo(EMPTY.memberships, GroupRef(g), p, g);
    }
  }

  lemma StepKeepsIds(s: Store, op: Op)
    requires IdsAllocated(s)
    ensures IdsAllocated(Apply(s, op).0)
  {
  }

  lemma StepKeepsEdges(s: Store, op: Op)
    requires EdgesClosed(s)
    ensures EdgesClosed(Apply(s, op).0)
  {
  }

  lemma StepKeepsIdentities(s: Store, op: Op)
    requires IdsAllocated(s) && IdentitiesInjective(s)
    ensures IdentitiesInjective(Apply(s, op).0)
  {
  }

  lemma StepKeepsUsernames(s: Store, op: Op)
    requires UsernamesUnique(s)
    ensures UsernamesUnique(Apply(s, op).0)
  {
  }

  lemma StepKeepsNames(s: Store, op: Op)
    requires NamesUnique(s)
    ensures NamesUnique(Apply(s, op).0)
  {
    match op
    case CreateGroup(name) => StripTrims(name);
    case _ =>
  }

  lemma StepKeepsAcyclic(s: Store, op: Op)
    requires Consistent(s)
    ensures Acyclic(Apply(s, op).0.memberships)
  {
    match op
    case AddMember(g, UserRef(u)) => UserEdgeKeepsAcyclic(s.memberships, g, u);
    case AddMember(g, GroupRef(h)) => EdgeBreaksAcyclicity(s.memberships, g, h);
    case _ => AcyclicSubset(Apply(s, op).0.memberships, s.memberships);
  }

  lemma StepKeepsConsistent(s: Store, op: Op)
    requires Consistent(s)
    ensures Consistent(Apply(s, op).0)
  {
    StepKeepsIds(s, op);
    StepKeepsEdges(s, op);
    StepKeepsIdentities(s, op);
    StepKeepsUsernames(s, op);
    StepKeepsNames(s, op);
    StepKeepsAcyclic(s, op);
  }

  /**
   The guard is exact: for existing groups, add_member reports a cycle exactly when the new edge would
   put a cycle into the graph.
   */
  lemma CycleErrorIsExact(s: Store, g: nat, h: nat)
    requires Consistent(s) && g in s.groups && h in s.groups
    ensures Apply(s, AddMember(g, GroupRef(h))).1 == Failure(GroupCycle(g, h)) <==>
            !Acyclic(s.memberships + {Membership(g, GroupRef(h))})
  {
    EdgeBreaksAcyclicity(s.memberships, g, h);
  }

  // ---------------------------------------------------------------------------
  // Runs
  // ---------------------------------------------------------------------------

  ghost function Run(s: Store, ops: seq<Op>): Store
    decreases ops
  {
    if ops == [] then s else Run(Apply(s, ops[0]).0, ops[1..])
  }

  lemma {:induction false} RunAppend(s: Store, a: seq<Op>, b: seq<Op>)
    ensures Run(s, a + b) == Run(Run(s, a), b)
    decreases a
  {
    if a == [] {
      assert a + b == b;
    } else {
      RunAppend(Apply(s, a[0]).0, a[1..], b);
      assert (a + b)[1..] == a[1..] + b;
    }
  }

  lemma {:induction false} RunKeepsConsistent(s: Store, ops: seq<Op>)
    requires Consistent(s)
    ensures Consistent(Run(s, ops))
    decreases ops
  {
    if ops != [] {
      StepKeepsConsistent(s, ops[0]);
      RunKeepsConsistent(Apply(s, ops[0]).0, ops[1..]);
    }
  }

  /**
   Over every run from the empty store the edges have existing endpoints, the group edges are acyclic,
   and so no user's resolution can raise a cycle error.
   */
  lemma EveryRunIsAcyclic(ops: seq<Op>)
    ensures var s := Run(EMPTY, ops);
            && Acyclic(s.memberships) && EdgesClosed(s)
            && forall x :: !CycleAbove(s.memberships, x)
  {
    EmptyIsConsistent();
    RunKeepsConsistent(EMPTY, ops);
  }

  /** Group `g` was allocated once and has been deleted. */
  ghost predicate Retired(s: Store, g: nat) {
    g <= s.lastGroupId && g !in s.groups
  }

  lemma {:induction false} RetiredForever(s: Store, g: nat, ops: seq<Op>)
    requires Consistent(s) && Retired(s, g)
    ensures Retired(Run(s, ops), g)
    decreases ops
  {
    if ops != [] {
      StepKeepsConsistent(s, ops[0]);
      RetiredForever(Apply(s, ops[0]).0, g, ops[1..]);
    }
  }

  lemma RetiredHoldsNothing(s: Store, g: nat, x: Subject)
    requires EdgesClosed(s) && Retired(s, g)
    ensures !Holds(s.memberships, g, x)
  {
    assert forall e :: e in s.memberships ==> e.groupId != g;
    forall p ensures !ClimbsTo(s.memberships, x, p, g) {
      if |p| > 1 {
        assert Membership(g, GroupRef(p[|p| - 2])) !in s.memberships;
      }
    }
  }

  /** Once a group is deleted, no later state of any run lets it hold anything. */
  lemma DeletedGroupHoldsNothing(before: seq<Op>, g: nat, after: seq<Op>, x: Subject)
    requires Apply(Run(EMPTY, before), DeleteGroup(g)).1.Success?
    ensures !Holds(Run(EMPTY, before + [DeleteGroup(g)] + after).memberships, g, x)
  {
    var s := Run(EMPTY, before);
    EmptyIsConsistent();
    RunKeepsConsistent(EMPTY, before);
    StepKeepsConsistent(s, DeleteGroup(g));
    var deleted := Apply(s, DeleteGroup(g)).0;
    RunAppend(EMPTY, before, [DeleteGroup(g)]);
    assert Run(s, [DeleteGroup(g)]) == Run(deleted, []) == deleted;
    RunAppend(EMPTY, before + [DeleteGroup(g)], after);
    RetiredForever(deleted, g, after);
    RunKeepsConsistent(deleted, after);
    RetiredHoldsNothing(Run(deleted, after), g, x);
  }

  // ---------------------------------------------------------------------------
  // The store object
  // ---------------------------------------------------------------------------

  class SqliteAccountStore {
    var users: map<nat, UserRow>
    var lastUserId: nat
    var groups: map<nat, string>
    var lastGroupId: nat
    var memberships: Graph
    var identities: map<ExternalId, nat>

    ghost function State(): Store
      reads this
    {
      Store(users, lastUserId, groups, lastGroupId, memberships, identities)
    }

    constructor ()
      ensures State() == EMPTY
    {
      users, lastUserId, groups, lastGroupId, memberships, identities := map[], 0, map[], 0, {}, map[];
    }

    method CreateUser(username: string, passwordHash: Bytes, email: Option<string>) returns (r: Outcome)
      modifies this`users, this`lastUserId
      ensures (State(), r) == Apply(old(State()), Op.CreateUser(username, passwordHash, email))
      ensures r.Success? <==>
                && Strip(username) != "" && passwordHash != []
                && forall u :: u in old(users) ==> old(users)[u].username != Strip(username)
      ensures r.Success? ==>
                && r.value == Created(old(lastUserId) + 1) && lastUserId == old(lastUserId) + 1
                && users == old(users)[lastUserId := UserRow(Strip(username), email, passwordHash)]
      ensures r.Failure? ==>
                && users == old(users) && lastUserId == old(lastUserId)
                && r.error == (if Strip(username) == "" || passwordHash == [] then InvalidArgument
                               else UsernameTaken(Strip(username)))
    {
      if |Strip(username)| == 0 || |passwordHash| == 0 {
        return Failure(InvalidArgument);
      }
      var normalized := Strip(username);
      if exists u | u in users :: users[u].username == normalized {
        return Failure(UsernameTaken(normalized));
      }
      lastUserId := lastUserId + 1;
      users := users[lastUserId := UserRow(normalized, email, passwordHash)];
      r := Success(Created(lastUserId));
    }

    method CreateExternalUser(key: ExternalId, username: string, email: Option<string>, sentinel: Bytes)
      returns (r: Outcome)
      modifies this`users, this`lastUserId, this`identities
      ensures (State(), r) == Apply(old(State()), Op.CreateExternalUser(key, username, email, sentinel))
      ensures r.Success? ==>
                && r.value == Created(old(lastUserId) + 1) && lastUserId == old(lastUserId) + 1
                && users == old(users)[lastUserId := UserRow(Strip(username), email, sentinel)]
                && key !in old(identities) && identities == old(identities)[key := lastUserId]
      ensures r.Failure? ==> users == old(users) && lastUserId == old(lastUserId) && identities == old(identities)
    {
      if |Strip(username)| == 0 {
        return Failure(InvalidArgument);
      }
      if key.provider == "" || key.subject == "" {
        return Failure(InvalidArgument);
      }
      var normalized := Strip(username);
      if exists u | u in users :: users[u].username == normalized {
        return Failure(UsernameTaken(normalized));
      }
      var usersBefore, lastBefore := users, lastUserId;
      lastUserId := lastUserId + 1;
      users := users[lastUserId := UserRow(normalized, email, sentinel)];
      if key in identities {
        // the primary key of external_identities refuses the row: roll the transaction back
        users, lastUserId := usersBefore, lastBefore;
        return Failure(UsernameTaken(normalized));
      }
      identities := identities[key := lastUserId];
      r := Success(Created(lastUserId));
    }

    /** The user linked to an identity, by the join of users and external_identities. */
    method GetUserByExternalId(key: ExternalId) returns (r: Result<nat, AccountError>)
      ensures r == LookupExternal(State(), key)
      ensures r == if key in identities && identities[key] in users then Success(identities[key])
                   else Failure(UserNotFound)
    {
      if key in identities && identities[key] in users {
        return Success(identities[key]);
      }
      r := Failure(UserNotFound);
    }

    method CreateGroup(name: string) returns (r: Outcome)
      modifies this`groups, this`lastGroupId
      ensures (State(), r) == Apply(old(State()), Op.CreateGroup(name))
      ensures r.Success? <==> Strip(name) != "" && forall g :: g in old(groups) ==> old(groups)[g] != Strip(name)
      ensures r.Success? ==>
                && r.value == Created(old(lastGroupId) + 1) && lastGroupId == old(lastGroupId) + 1
                && groups == old(groups)[lastGroupId := Strip(name)]
      ensures r.Failure? ==>
                && groups == old(groups) && lastGroupId == old(lastGroupId)
                && r.error == if Strip(name) == "" then InvalidArgument else GroupNameTaken(Strip(name))
    {
      if |Strip(name)| == 0 {
        return Failure(InvalidArgument);
      }
      var normalized := Strip(name);
      if exists g | g in groups :: groups[g] == normalized {
        return Failure(GroupNameTaken(normalized));
      }
      lastGroupId := lastGroupId + 1;
      groups := groups[lastGroupId := normalized];
      r := Success(Created(lastGroupId));
    }

    method GetGroupByName(name: string) returns (r: Result<nat, AccountError>)
      ensures r.Success? ==> r.value in groups && groups[r.value] == name
      ensures r.Failure? ==> r.error == GroupNotFound && !GroupNameExists(State(), name)
    {
      if g :| g in groups && groups[g] == name {
        return Success(g);
      }
      r := Failure(GroupNotFound);
    }

    method GetGroupById(groupId: nat) returns (r: Result<string, AccountError>)
      ensures r == if groupId in groups then Success(groups[groupId]) else Failure(GroupNotFound)
    {
      r := if groupId in groups then Success(groups[groupId]) else Failure(GroupNotFound);
    }

    method DeleteGroup(groupId: nat) returns (r: Outcome)
      modifies this`groups, this`memberships
      ensures (State(), r) == Apply(old(State()), Op.DeleteGroup(groupId))
      ensures r == if groupId in old(groups) then Success(Done) else Failure(GroupNotFound)
      ensures groups == old(groups) - {groupId}
      ensures r.Success? ==> forall e: Membership :: e in memberships <==>
                e in old(memberships) && e.groupId != groupId && e.member != GroupRef(groupId)
      ensures r.Failure? ==> memberships == old(memberships)
    {
      if groupId !in groups {
        return Failure(GroupNotFound);
      }
      groups := groups - {groupId};
      memberships := set e | e in memberships && e.groupId != groupId;
      memberships := set e | e in memberships && e.member != GroupRef(groupId);
      r := Success(Done);
      assert memberships == Without(old(memberships), groupId);
    }

    method AddMember(groupId: nat, member: Subject) returns (r: Outcome)
      modifies this`memberships
      ensures (State(), r) == Apply(old(State()), Op.AddMember(groupId, member))
      ensures groupId !in groups ==> r == Failure(GroupNotFound)
      ensures groupId in groups && member.UserRef? && member.id !in users ==> r == Failure(UserNotFound)
      ensures groupId in groups && member.GroupRef? && member.id !in groups ==> r == Failure(GroupNotFound)
      ensures r.Success? ==> Membership(groupId, member) !in old(memberships)
      ensures memberships == old(memberships) + if r.Success? then {Membership(groupId, member)} else {}
    {
      if groupId !in groups {
        return Failure(GroupNotFound);
      }
      match member {
        case UserRef(u) =>
          if u !in users {
            return Failure(UserNotFound);
          }
        case GroupRef(h) =>
          if h !in groups {
            return Failure(GroupNotFound);
          }
          if h == groupId {
            return Failure(GroupCycle(groupId, h));
          }
          var descendants := GroupDescendants(memberships, h);
          if groupId in descendants {
            return Failure(GroupCycle(groupId, h));
          }
      }
      if Membership(groupId, member) in memberships {
        return Failure(DuplicateMembership);
      }
      memberships := memberships + {Membership(groupId, member)};
      r := Success(Done);
    }

    method RemoveMember(groupId: nat, member: Subject) returns (r: Outcome)
      modifies this`memberships
      ensures (State(), r) == Apply(old(State()), Op.RemoveMember(groupId, member))
      ensures r == if Membership(groupId, member) in old(memberships) then Success(Done)
                   else Failure(MembershipNotFound)
      ensures memberships == old(memberships) - {Membership(groupId, member)}
    {
      if Membership(groupId, member) !in memberships {
        return Failure(MembershipNotFound);
      }
      memberships := memberships - {Membership(groupId, member)};
      r := Success(Done);
    }

    method ListParentGroupIds(member: Subject) returns (ids: seq<nat>)
      ensures forall g :: g in ids <==> g in Parents(memberships, member)
    {
      ids := AnyOrder(Parents(memberships, member));
    }

    method ResolveUserGroupIds(userId: nat) returns (r: Result<set<nat>, AccountError>)
      ensures r == Failure(UserNotFound) <==> userId !in users
      ensures userId in users ==> (r.Failure? <==> CycleAbove(memberships, UserRef(userId)))
      ensures r.Success? ==> forall g :: g in r.value <==> Holds(memberships, g, UserRef(userId))
      ensures r.Failure? && userId in users ==> r.error.GroupCycle?
    {
      r := ResolveUserGroups(users.Keys, memberships, userId);
    }
  }

  function LookupExternal(s: Store, key: ExternalId): Result<nat, AccountError> {
    if key in s.identities && s.identities[key] in s.users then Success(s.identities[key]) else Failure(UserNotFound)
  }

  // ---------------------------------------------------------------------------
  // What a deletion leaves
  // ---------------------------------------------------------------------------

  /** A climb survives the deletion of group g exactly when it neither passes nor starts at g. */
  lemma ClimbSurvivesExactlyWhen(s: Store, g: nat, x: Subject, p: seq<nat>, h: nat)
    requires g in s.groups
    ensures ClimbsTo(Apply(s, DeleteGroup(g)).0.memberships, x, p, h) <==>
            ClimbsTo(s.memberships, x, p, h) && g !in p && x != GroupRef(g)
  {
    var m, m' := s.memberships, Apply(s, DeleteGroup(g)).0.memberships;
    if ClimbsTo(m', x, p, h) {
      forall i | 0 <= i < |p| ensures p[i] != g {
        if i > 0 { assert Membership(p[i], GroupRef(p[i - 1])) in m'; }
      }
    }
    if ClimbsTo(m, x, p, h) && g !in p && x != GroupRef(g) {
      assert p[0] in p;
      forall i | 0 < i < |p| ensures Membership(p[i], GroupRef(p[i - 1])) in m' {
        assert p[i] in p && p[i - 1] in p;
      }
    }
  }

  /**
   After the deletion of a group exactly the containments that had a climb avoiding it are left; accounts,
   links and all other groups are as they were.
   */
  lemma DeletionIsExact(s: Store, g: nat, h: nat, x: Subject)
    requires g in s.groups
    ensures var s' := Apply(s, DeleteGroup(g)).0;
            && s'.users == s.users && s'.lastUserId == s.lastUserId && s'.identities == s.identities
            && s'.groups == s.groups - {g} && s'.lastGroupId == s.lastGroupId
            && (forall e: Membership :: e in s'.memberships <==>
                  e in s.memberships && e.groupId != g && e.member != GroupRef(g))
            && (Holds(s'.memberships, h, x) <==>
                  x != GroupRef(g) && exists p :: ClimbsTo(s.memberships, x, p, h) && g !in p)
  {
    forall p ensures ClimbsTo(Apply(s, DeleteGroup(g)).0.memberships, x, p, h) <==>
                     ClimbsTo(s.memberships, x, p, h) && g !in p && x != GroupRef(g)
    {
      ClimbSurvivesExactlyWhen(s, g, x, p, h);
    }
  }

  // ---------------------------------------------------------------------------
  // Adding and removing cancel out
  // ---------------------------------------------------------------------------

  /** remove_member undoes a successful add_member. */
  lemma AddThenRemove(s: Store, g: nat, x: Subject)
    requires Apply(s, AddMember(g, x)).1.Success?
    ensures Apply(Apply(s, AddMember(g, x)).0, RemoveMember(g, x)) == (s, Success(Done))
  {
    assert s.memberships + {Membership(g, x)} - {Membership(g, x)} == s.memberships;
  }
}
