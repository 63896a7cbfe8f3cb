/**
 The access decision of the relay: allowlist entries are matched through the membership graph and the
 most permissive role wins.
 */
module AccessPolicy {
  import opened Prelude
  import opened MembershipGraph
  import opened GroupResolution
  import opened AccountStore

  datatype Role = Read | Write | Receive

  datatype AccessMode = Open | Restricted | Legacy

  datatype PolicyEntry = PolicyEntry(subject: Subject, role: Role)

  datatype MountPolicy = MountPolicy(mode: AccessMode, hasPassword: bool, entries: seq<PolicyEntry>)

  datatype SessionIdentity = SessionIdentity(userId: nat, username: string)

  datatype AccessDecision =
    | Allow(identified: bool, username: Option<string>, role: Option<Role>)
    | AuthenticationRequired
    | AccessDenied(deniedUser: string)
    | Crash(error: AccountError)

  function Rank(r: Role): nat {
    match r
    case Read => 1
    case Receive => 2
    case Write => 3
  }

  // ---------------------------------------------------------------------------
  // The path-based specification
  // ---------------------------------------------------------------------------

  /** The entry names the user, or a group with a containment path down to the user. */
  ghost predicate Grants(m: Graph, e: PolicyEntry, userId: nat) {
    e.subject == UserRef(userId) || (e.subject.GroupRef? && Holds(m, e.subject.id, UserRef(userId)))
  }

  ghost predicate GrantsRole(m: Graph, entries: seq<PolicyEntry>, userId: nat, r: Role) {
    exists e :: e in entries && e.role == r && Grants(m, e, userId)
  }

  /** The most permissive role that some matching entry grants, decided role by role. */
  ghost function EffectiveRole(m: Graph, entries: seq<PolicyEntry>, userId: nat): Option<Role> {
    if GrantsRole(m, entries, userId, Write) then Some(Write)
    else if GrantsRole(m, entries, userId, Receive) then Some(Receive)
    else if GrantsRole(m, entries, userId, Read) then Some(Read)
    else None
  }

  /** The role of a signed-in user; an account that no longer exists matches nothing. */
  ghost function AllowlistRole(store: Option<Store>, entries: seq<PolicyEntry>, userId: nat): Option<Role> {
    if store.None? || userId !in store.value.users then None
    else EffectiveRole(store.value.memberships, entries, userId)
  }

  /** The decision as the access model documents it, for a store without cycles. */
  ghost function Decide(store: Option<Store>, policy: Option<MountPolicy>,
                        identity: Option<SessionIdentity>): AccessDecision {
    if policy.None? then Allow(false, None, None)
    else
      var role := if identity.None? then None else AllowlistRole(store, policy.value.entries, identity.value.userId);
      var name := if identity.None? then None else Some(identity.value.username);
      if role.Some? then Allow(true, name, role)
      else if policy.value.mode != Restricted then Allow(false, name, None)
      else if policy.value.hasPassword then Allow(false, None, None)
      else if identity.None? then AuthenticationRequired
      else AccessDenied(identity.value.username)
  }

  /** The entry is on the allowlist and grants the identity's account, which still exists. */
  ghost predicate Listed(store: Option<Store>, policy: MountPolicy, identity: Option<SessionIdentity>, e: PolicyEntry) {
    && e in policy.entries && identity.Some? && store.Some? && identity.value.userId in store.value.users
    && Grants(store.value.memberships, e, identity.value.userId)
  }

  /** Read is the least role, Write the greatest. */
  predicate AtMost(a: Role, b: Role) {
    a == b || a == Read || b == Write
  }

  /** What a caller may rely on, in terms of single entries: who is identified, with which role, and who is not. */
  ghost predicate IsRight(store: Option<Store>, policy: MountPolicy, identity: Option<SessionIdentity>,
                          d: AccessDecision) {
    && (d.Allow? && d.identified <==> exists e :: Listed(store, policy, identity, e))
    && (d.Allow? && d.identified ==>
          && d.username == Some(identity.value.username) && d.role.Some?
          && (exists e :: Listed(store, policy, identity, e) && e.role == d.role.value)
          && (forall e :: Listed(store, policy, identity, e) ==> AtMost(e.role, d.role.value)))
    && (!(d.Allow? && d.identified) ==>
          var name := if identity.Some? then Some(identity.value.username) else None;
          match policy.mode
          case Open => d == Allow(false, name, None)
          case Legacy => d == Allow(false, name, None)
          case Restricted =>
            if policy.hasPassword then d == Allow(false, None, None)
            else if identity.None? then d == AuthenticationRequired
            else d == AccessDenied(identity.value.username))
  }

  // ---------------------------------------------------------------------------
  // The code
  // ---------------------------------------------------------------------------

  /** max(roles, key = rank): a role of the list that no other outranks. */
  method HighestRole(roles: seq<Role>) returns (best: Role)
    requires roles != []
    ensures best in roles && forall r :: r in roles ==> Rank(r) <= Rank(best)
  {
    best := roles[0];
    for i := 1 to |roles|
      invariant best in roles
      invariant forall k :: 0 <= k < i ==> Rank(roles[k]) <= Rank(best)
    {
      if Rank(roles[i]) > Rank(best) {
        best := roles[i];
      }
    }
  }

  method MatchedRole(policy: MountPolicy, identity: SessionIdentity, store: SqliteAccountStore?)
    returns (r: Result<Option<Role>, AccountError>)
    ensures r.Failure? <==> store != null && identity.userId in store.users
                            && CycleAbove(store.memberships, UserRef(identity.userId))
    ensures r.Failure? ==> r.error.GroupCycle?
    ensures r.Success? ==> r.value == AllowlistRole(StateOf(store), policy.entries, identity.userId)
  {
    if store == null {
      return Success(None);
    }
    var groupIds := store.ResolveUserGroupIds(identity.userId);
    if groupIds.Failure? {
      if groupIds.error == UserNotFound {
        return Success(None);
      }
      return Failure(groupIds.error);
    }
    ghost var m := store.memberships;
    var matched := [];
    for i := 0 to |policy.entries|
      invariant forall k :: 0 <= k < i && Grants(m, policy.entries[k], identity.userId) ==>
                policy.entries[k].role in matched
      invariant forall role :: role in matched ==> GrantsRole(m, policy.entries, identity.userId, role)
    {
      var entry := policy.entries[i];
      if entry.subject.UserRef? && entry.subject.id == identity.userId {
        assert entry in policy.entries && Grants(m, entry, identity.userId);
        matched := matched + [entry.role];
      } else if entry.subject.GroupRef? && entry.subject.id in groupIds.value {
        assert entry in policy.entries && Grants(m, entry, identity.userId);
        matched := matched + [entry.role];
      }
    }
    assert forall role :: GrantsRole(m, policy.entries, identity.userId, role) ==> role in matched;
    if matched == [] {
      return Success(None);
    }
    var best := HighestRole(matched);
    assert EffectiveRole(m, policy.entries, identity.userId) == Some(best);
    r := Success(Some(best));
  }

  ghost function StateOf(store: SqliteAccountStore?): Option<Store>
    reads store
  {
    if store == null then None else Some(store.State())
  }

  /** Decides whether a request may proceed; `policy` is None when the mount has no row. */
  method Authorize(policy: Option<MountPolicy>, store: SqliteAccountStore?, identity: Option<SessionIdentity>)
    returns (d: AccessDecision)
    ensures d.Crash? <==> policy.Some? && identity.Some? && store != null && identity.value.userId in store.users
                          && CycleAbove(store.memberships, UserRef(identity.value.userId))
    ensures !d.Crash? ==> d == Decide(StateOf(store), policy, identity)
    ensures policy.None? ==> d == Allow(false, None, None)
    ensures !d.Crash? && policy.Some? ==> IsRight(StateOf(store), policy.value, identity, d)
  {
    if policy.Some? { DecisionIsRight(StateOf(store), policy.value, identity); }
    if policy.None? {
      return Allow(false, None, None);
    }
    if identity.Some? {
      var role := MatchedRole(policy.value, identity.value, store);
      if role.Failure? {
        return Crash(role.error);
      }
      if role.value.Some? {
        return Allow(true, Some(identity.value.username), role.value);
      }
    }
    var username := if identity.Some? then Some(identity.value.username) else None;
    if policy.value.mode == Legacy {
      return Allow(false, username, None);
    }
    if policy.value.mode == Open {
      return Allow(false, username, None);
    }
    if policy.value.hasPassword {
      return Allow(false, None, None);
    }
    if identity.None? {
      return AuthenticationRequired;
    }
    d := AccessDenied(identity.value.username);
  }

  // ---------------------------------------------------------------------------
  // Properties of the decision
  // ---------------------------------------------------------------------------

  /** The effective role is granted by some matching entry and no matching entry outranks it. */
  lemma EffectiveRoleIsMaximum(m: Graph, entries: seq<PolicyEntry>, userId: nat)
    ensures var r := EffectiveRole(m, entries, userId);
            && (r.None? <==> forall e :: e in entries ==> !Grants(m, e, userId))
            && (r.Some? ==> exists e :: e in entries && e.role == r.value && Grants(m, e, userId))
            && (r.Some? ==> forall e :: e in entries && Grants(m, e, userId) ==> Rank(e.role) <= Rank(r.value))
  {
    forall e | e in entries && Grants(m, e, userId)
      ensures EffectiveRole(m, entries, userId).Some? && Rank(e.role) <= Rank(EffectiveRole(m, entries, userId).value)
    {
      assert GrantsRole(m, entries, userId, e.role);
      match e.role case Read => case Write => case Receive =>
    }
  }

  /**
   The decision entry by entry: a user is identified exactly when some entry grants them, with the role of a
   granting entry that no granting entry exceeds; everybody else gets what mode and password say.
   */
  lemma DecisionIsRight(store: Option<Store>, policy: MountPolicy, identity: Option<SessionIdentity>)
    ensures IsRight(store, policy, identity, Decide(store, Some(policy), identity))
  {
    if identity.Some? && store.Some? && identity.value.userId in store.value.users {
      var m, u := store.value.memberships, identity.value.userId;
      EffectiveRoleIsMaximum(m, policy.entries, u);
      forall e | Listed(store, policy, identity, e) ensures EffectiveRole(m, policy.entries, u).Some? {}
      if EffectiveRole(m, policy.entries, u).Some? {
        var e :| e in policy.entries && e.role == EffectiveRole(m, policy.entries, u).value && Grants(m, e, u);
        assert Listed(store, policy, identity, e);
      }
    }
  }

  function RoleRank(r: Option<Role>): nat {
    if r.None? then 0 else Rank(r.value)
  }

  /** More edges and more entries never lower the effective role. */
  lemma EffectiveRoleMonotone(m: Graph, m': Graph, entries: seq<PolicyEntry>, entries': seq<PolicyEntry>, userId: nat)
    requires m <= m' && forall e :: e in entries ==> e in entries'
    ensures RoleRank(EffectiveRole(m, entries, userId)) <= RoleRank(EffectiveRole(m', entries', userId))
  {
    forall r | GrantsRole(m, entries, userId, r) ensures GrantsRole(m', entries', userId, r) {
      var e :| e in entries && e.role == r && Grants(m, e, userId);
      if e.subject.GroupRef? { HoldsMonotone(m, m', e.subject.id, UserRef(userId)); }
      assert e in entries' && Grants(m', e, userId);
    }
  }

  /** INSERT OR REPLACE on the (mount, subject) key of the allowlist. */
  function Upsert(entries: seq<PolicyEntry>, entry: PolicyEntry): (r: seq<PolicyEntry>)
    ensures forall e :: e in r <==> e == entry || (e in entries && e.subject != entry.subject)
  {
    if entries == [] then [entry]
    else if entries[0].subject == entry.subject then Upsert(entries[1..], entry)
    else [entries[0]] + Upsert(entries[1..], entry)
  }

  /**
   A successful add_member, or an allowlist entry for a new subject, never lowers a user's role and
   never turns an allow into a refusal.
   */
  lemma GrantingNeverRevokes(s: Store, g: nat, x: Subject, policy: MountPolicy, entry: PolicyEntry,
                             identity: Option<SessionIdentity>)
    requires forall e :: e in policy.entries ==> e.subject != entry.subject
    ensures var s' := Apply(s, Op.AddMember(g, x)).0;
            var policy' := policy.(entries := Upsert(policy.entries, entry));
            NotWorse(Decide(Some(s), Some(policy), identity), Decide(Some(s'), Some(policy), identity))
            && NotWorse(Decide(Some(s), Some(policy), identity), Decide(Some(s), Some(policy'), identity))
  {
    if identity.Some? {
      var u, m := identity.value.userId, s.memberships;
      EffectiveRoleMonotone(m, Apply(s, Op.AddMember(g, x)).0.memberships, policy.entries, policy.entries, u);
      EffectiveRoleMonotone(m, m, policy.entries, Upsert(policy.entries, entry), u);
    }
  }

  ghost predicate NotWorse(before: AccessDecision, after: AccessDecision) {
    && (before.Allow? ==> after.Allow?)
    && (before.Allow? && before.identified ==> after.identified && RoleRank(before.role) <= RoleRank(after.role))
  }

  /**
   Replacing the entry of a subject that is already listed can lower somebody's role: it never does,
   for any graph and user, exactly when no replaced entry outranks the new one.
   */
  lemma ReplacingIsSafeExactlyWhen(entries: seq<PolicyEntry>, entry: PolicyEntry)
    ensures (forall m: Graph, u: nat ::
               RoleRank(EffectiveRole(m, entries, u)) <= RoleRank(EffectiveRole(m, Upsert(entries, entry), u)))
            <==> (forall e :: e in entries && e.subject == entry.subject ==> Rank(e.role) <= Rank(entry.role))
  {
    var entries' := Upsert(entries, entry);
    if forall e :: e in entries && e.subject == entry.subject ==> Rank(e.role) <= Rank(entry.role) {
      forall m: Graph, u: nat
        ensures RoleRank(EffectiveRole(m, entries, u)) <= RoleRank(EffectiveRole(m, entries', u))
      {
        EffectiveRoleIsMaximum(m, entries, u);
        EffectiveRoleIsMaximum(m, entries', u);
        if EffectiveRole(m, entries, u).Some? {
          var e :| e in entries && e.role == EffectiveRole(m, entries, u).value && Grants(m, e, u);
          if e.subject == entry.subject {
            assert entry in entries' && Grants(m, entry, u);
          } else {
            assert e in entries';
          }
        }
      }
    }
    forall e | e in entries && e.subject == entry.subject && Rank(e.role) > Rank(entry.role)
      ensures exists m: Graph, u: nat ::
                RoleRank(EffectiveRole(m, entries, u)) > RoleRank(EffectiveRole(m, entries', u))
    {
      var u := if entry.subject.UserRef? then entry.subject.id else UnlistedUser(entries);
      var m: Graph := if entry.subject.UserRef? then {} else {Membership(entry.subject.id, UserRef(u))};
      OnlyThisSubject(m, entry.subject, u, entries);
      EffectiveRoleIsMaximum(m, entries, u);
      EffectiveRoleIsMaximum(m, entries', u);
      assert Grants(m, e, u) && entry in entries';
    }
  }

  /** A user id that no entry names. */
  ghost function UnlistedUser(entries: seq<PolicyEntry>): (u: nat)
    ensures forall e :: e in entries ==> e.subject.id < u
  {
    if entries == [] then 0
    else
      var rest := UnlistedUser(entries[1..]);
      if entries[0].subject.id < rest then rest else entries[0].subject.id + 1
  }

  /** In a graph whose only edge is "x contains u" (none when x is the user), only x matches u. */
  lemma OnlyThisSubject(m: Graph, x: Subject, u: nat, entries: seq<PolicyEntry>)
    requires m == if x.UserRef? then {} else {Membership(x.id, UserRef(u))}
    requires if x.UserRef? then x.id == u else forall e :: e in entries ==> e.subject != UserRef(u)
    ensures forall e: PolicyEntry :: e.subject == x ==> Grants(m, e, u)
    ensures forall e :: e in entries && e.subject != x ==> !Grants(m, e, u)
  {
    if x.GroupRef? { HoldsDirect(m, x.id, UserRef(u)); }
    forall q: seq<nat> | |q| > 1 ensures !Climbs(m, UserRef(u), q) {
      assert Membership(q[1], GroupRef(q[0])) !in m;
    }
    forall g | Holds(m, g, UserRef(u)) ensures x == GroupRef(g) {
      var p :| ClimbsTo(m, UserRef(u), p, g);
    }
  }

  /** A refusal happens exactly for restricted, password-less mounts and requests nothing matches. */
  lemma RefusalIsExact(store: Option<Store>, policy: Option<MountPolicy>, identity: Option<SessionIdentity>)
    ensures !Decide(store, policy, identity).Allow? <==>
            && policy.Some? && policy.value.mode == Restricted && !policy.value.hasPassword
            && (identity.None? || store.None? || identity.value.userId !in store.value.users
                || forall e :: e in policy.value.entries ==> !Grants(store.value.memberships, e, identity.value.userId))
  {
    if policy.Some? && identity.Some? && store.Some? {
      EffectiveRoleIsMaximum(store.value.memberships, policy.value.entries, identity.value.userId);
    }
  }

  /** An allowlist entry that names a deleted group matches nobody in any later state of any run. */
  lemma DeletedGroupNeverGrants(before: seq<Op>, g: nat, after: seq<Op>, e: PolicyEntry, userId: nat)
    requires Apply(Run(EMPTY, before), Op.DeleteGroup(g)).1.Success? && e.subject == GroupRef(g)
    ensures !Grants(Run(EMPTY, before + [Op.DeleteGroup(g)] + after).memberships, e, userId)
  {
    DeletedGroupHoldsNothing(before, g, after, UserRef(userId));
  }
}
