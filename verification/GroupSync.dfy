/** Reconciling a user's groups in the SSO namespace with the groups claim of a login. */
module GroupSync {
  import opened Prelude
  import opened MembershipGraph
  import opened GroupResolution
  import opened AccountStore

  function Desired(claimed: seq<string>, prefix: string): set<string> {
    set g | g in claimed && prefix <= g
  }

  /** The names of the prefix groups the user is a direct member of. */
  ghost function DirectPrefixNames(s: Store, userId: nat, prefix: string): set<string> {
    set g | g in s.groups && Membership(g, UserRef(userId)) in s.memberships && prefix <= s.groups[g] :: s.groups[g]
  }

  /** The edges a sync must not touch: everything but the user's direct memberships in prefix groups. */
  ghost function Untouched(s: Store, userId: nat, prefix: string): Graph {
    set e | e in s.memberships && !(e.member == UserRef(userId) && e.groupId in s.groups
        && prefix <= s.groups[e.groupId])
  }

  ghost function ClaimedEdges(s: Store, userId: nat, desired: set<string>): Graph {
    set g | g in s.groups && s.groups[g] in desired :: Membership(g, UserRef(userId))
  }

  /** Only missing claimed groups are created; no account changes. */
  ghost predicate GroupsExtended(s: Store, s': Store, names: set<string>) {
    && s'.users == s.users && s'.lastUserId == s.lastUserId && s'.identities == s.identities
    && (forall g :: g in s.groups ==> g in s'.groups && s'.groups[g] == s.groups[g])
    && (forall g :: g in s'.groups && g !in s.groups ==> s'.groups[g] in names)
    && (s'.groups == s.groups ==> s'.lastGroupId == s.lastGroupId)
    && s.lastGroupId <= s'.lastGroupId
  }

  /** What a sync achieves, edge for edge. */
  ghost predicate Synced(s: Store, s': Store, userId: nat, prefix: string, desired: set<string>) {
    && GroupsExtended(s, s', desired)
    && (forall n :: n in desired ==> GroupNameExists(s', n))
    && s'.memberships == Untouched(s, userId, prefix) + ClaimedEdges(s', userId, desired)
  }

  /** The group of that name, created when it is missing. */
  method EnsureGroup(store: SqliteAccountStore, name: string) returns (r: Result<nat, AccountError>)
    requires Consistent(store.State())
    modifies store`groups, store`lastGroupId
    ensures Consistent(store.State()) && GroupsExtended(old(store.State()), store.State(), {Strip(name)})
    ensures Trimmed(name) && name != "" ==> r.Success?
    ensures r.Success? ==> r.value in store.groups && (Trimmed(name) ==> store.groups[r.value] == name)
  {
    StripTrims(name);
    r := store.GetGroupByName(name);
    if r.Failure? {
      StepKeepsConsistent(store.State(), Op.CreateGroup(name));
      var created := store.CreateGroup(name);
      if created.Success? {
        r := Success(created.value.id);
      } else if created.error.GroupNameTaken? {
        r := store.GetGroupByName(name);
      } else {
        r := Failure(created.error);
      }
    }
  }

  /** Step 1 for one claimed name: the group exists and the user is a member. */
  method EnsureMember(store: SqliteAccountStore, userId: nat, name: string) returns (r: Result<nat, AccountError>)
    requires Consistent(store.State())
    modifies store`groups, store`lastGroupId, store`memberships
    ensures Consistent(store.State()) && GroupsExtended(old(store.State()), store.State(), {Strip(name)})
    ensures Trimmed(name) && name != "" && userId in store.users ==> r.Success?
    ensures r.Success? ==>
              && userId in store.users && r.value in store.groups
              && (Trimmed(name) ==> store.groups[r.value] == name)
              && store.memberships == old(store.memberships) + {Membership(r.value, UserRef(userId))}
    ensures r.Failure? ==> store.memberships == old(store.memberships)
  {
    r := EnsureGroup(store, name);
    if r.Success? {
      StepKeepsConsistent(store.State(), Op.AddMember(r.value, UserRef(userId)));
      var added := store.AddMember(r.value, UserRef(userId));
      if added.Failure? && added.error != DuplicateMembership {
        return Failure(added.error);
      }
    }
  }

  lemma FewerEdgesConsistent(s: Store, m: Graph)
    requires Consistent(s) && m <= s.memberships
    ensures Consistent(s.(memberships := m))
  {
    AcyclicSubset(m, s.memberships);
  }

  /** A membership the sync revokes. */
  predicate Unclaimed(groups: map<nat, string>, e: Membership, userId: nat, prefix: string, desired: set<string>) {
    e.member == UserRef(userId) && e.groupId in groups && prefix <= groups[e.groupId] && groups[e.groupId] !in desired
  }

  /** Step 2: leave the prefix groups that are no longer claimed. No group lookup can fail. */
  method RevokeUnclaimed(store: SqliteAccountStore, userId: nat, prefix: string, desired: set<string>)
    requires Consistent(store.State())
    modifies store`memberships
    ensures Consistent(store.State())
    ensures store.memberships ==
            set e | e in old(store.memberships) && !Unclaimed(store.groups, e, userId, prefix, desired)
  {
    var ids := store.ListParentGroupIds(UserRef(userId));
    ghost var s := store.State();
    forall i | 0 <= i < |ids| ensures ids[i] in s.groups {
      assert ids[i] in ids;
      assert Membership(ids[i], UserRef(userId)) in s.memberships;
    }
    for i := 0 to |ids|
      invariant forall e :: e in store.memberships <==>
                  e in s.memberships && !(Unclaimed(s.groups, e, userId, prefix, desired) && e.groupId in ids[..i])
    {
      var name := store.GetGroupById(ids[i]);
      if name.Failure? {
        assert false;
      }
      assert ids[..i + 1] == ids[..i] + [ids[i]];
      if prefix <= name.value && name.value !in desired {
        var _ := store.RemoveMember(ids[i], UserRef(userId));
      }
    }
    assert ids[..|ids|] == ids;
    assert forall e :: e in s.memberships && e.member == UserRef(userId) ==> e.groupId in ids;
    FewerEdgesConsistent(s, store.memberships);
  }

  /** Names that create_group stores as they are: non-empty, without surrounding white space. */
  ghost predicate Storable(names: set<string>) {
    forall n :: n in names ==> n != "" && Trimmed(n)
  }

  /** Edges of other members are the same in both graphs. */
  ghost predicate OthersUntouched(m: Graph, m': Graph, userId: nat) {
    forall e: Membership :: e.member != UserRef(userId) ==> (e in m' <==> e in m)
  }

  lemma OneMoreEdge(m: Graph, mid: Graph, userId: nat, g: nat)
    requires OthersUntouched(m, mid, userId)
    ensures OthersUntouched(m, mid + {Membership(g, UserRef(userId))}, userId)
  {
  }

  /** Step 1 for one more claimed name, on top of those that are `done`. */
  method JoinOne(store: SqliteAccountStore, userId: nat, n: string, ghost s: Store, ghost done: set<string>)
    returns (r: Result<(), AccountError>)
    requires Consistent(store.State()) && OthersUntouched(s.memberships, store.memberships, userId)
    modifies store`groups, store`lastGroupId, store`memberships
    ensures Consistent(store.State()) && store.users == old(store.users)
    ensures OthersUntouched(s.memberships, store.memberships, userId)
    ensures r.Success? ==> userId in store.users
    ensures n != "" && Trimmed(n) && userId in store.users ==> r.Success?
    ensures r.Success? && n != "" && Trimmed(n) && Joined(s, old(store.State()), userId, done) ==>
              Joined(s, store.State(), userId, done + {n})
  {
    ghost var before := store.State();
    StripTrims(n);
    var joined := EnsureMember(store, userId, n);
    if joined.Failure? {
      return Failure(joined.error);
    }
    OneMoreEdge(s.memberships, before.memberships, userId, joined.value);
    if n != "" && Trimmed(n) && Joined(s, before, userId, done) {
      JoinOneMore(s, before, store.State(), userId, done, n, joined.value);
    }
    r := Success(());
  }

  /** Step 1: every claimed group exists and the user is in it. */
  method JoinClaimed(store: SqliteAccountStore, userId: nat, desired: set<string>)
    returns (r: Result<(), AccountError>)
    requires Consistent(store.State())
    modifies store`groups, store`lastGroupId, store`memberships
    ensures Consistent(store.State())
    ensures OthersUntouched(old(store.memberships), store.memberships, userId)
    ensures Storable(desired) ==> (r.Success? <==> desired == {} || userId in store.users)
    ensures Storable(desired) && r.Success? ==> Joined(old(store.State()), store.State(), userId, desired)
  {
    ghost var s := store.State();
    ghost var done: set<string> := {};
    var left := desired;
    assert ClaimedEdges(s, userId, {}) == {};
    while exists n :: n in left
      invariant left <= desired && done == desired - left
      invariant Consistent(store.State()) && store.users == s.users
      invariant OthersUntouched(s.memberships, store.memberships, userId)
      invariant done != {} ==> userId in s.users
      invariant Storable(desired) ==> Joined(s, store.State(), userId, done)
      decreases left
    {
      var n :| n in left;
      r := JoinOne(store, userId, n, s, done);
      if r.Failure? {
        return;
      }
      done, left := done + {n}, left - {n};
    }
    assert done == desired;
    r := Success(());
  }

  /**
   The whole reconciliation. It leaves the user in exactly the claimed prefix groups if and only if
   every claimed name is non-empty and free of surrounding white space (and the user exists, when
   anything is claimed), and then a user who is in them already is left alone.
   */
  method SyncGroups(store: SqliteAccountStore, userId: nat, claimed: seq<string>, prefix: string)
    returns (r: Result<(), AccountError>)
    requires Consistent(store.State())
    modifies store`groups, store`lastGroupId, store`memberships
    ensures Consistent(store.State())
    ensures OthersUntouched(old(store.memberships), store.memberships, userId)
    ensures var desired := Desired(claimed, prefix);
            var met := Storable(desired) && (desired == {} || userId in store.users);
            && (met <==> r.Success? && DirectPrefixNames(store.State(), userId, prefix) == desired)
            && (met ==> Synced(old(store.State()), store.State(), userId, prefix, desired))
            && (met && DirectPrefixNames(old(store.State()), userId, prefix) == desired ==>
                  store.State() == old(store.State()))
    ensures var named := DirectPrefixNames(store.State(), userId, prefix);
            (r.Success? && forall n :: n in named <==> n in claimed && prefix <= n) <==>
            forall n :: n in claimed && prefix <= n ==> n != "" && Trimmed(n) && userId in store.users
  {
    var desired := Desired(claimed, prefix);
    r := JoinClaimed(store, userId, desired);
    if r.Success? {
      ghost var mid := store.State();
      RevokeUnclaimed(store, userId, prefix, desired);
      if Storable(desired) {
        RevokeAfterJoin(old(store.State()), mid, store.State(), userId, prefix, desired);
        SyncIsExact(old(store.State()), store.State(), userId, prefix, desired);
        if DirectPrefixNames(old(store.State()), userId, prefix) == desired {
          SettledSync(old(store.State()), store.State(), userId, prefix, desired);
        }
      }
    }
    UntrimmedNeverMatches(store.State(), userId, prefix, desired);
    MetIs(claimed, prefix, desired, store.State(), userId);
    SameNames(claimed, prefix, desired, DirectPrefixNames(store.State(), userId, prefix));
  }

  lemma MetIs(claimed: seq<string>, prefix: string, desired: set<string>, s: Store, userId: nat)
    requires desired == Desired(claimed, prefix)
    ensures Storable(desired) && (desired == {} || userId in s.users) <==>
            forall n :: n in claimed && prefix <= n ==> n != "" && Trimmed(n) && userId in s.users
  {
    assert forall n :: n in claimed && prefix <= n ==> n in desired;
    assert forall n :: n in desired ==> n in claimed && prefix <= n;
    if !(desired == {} || userId in s.users) {
      var n :| n in desired;
      assert n in claimed && prefix <= n;
    }
  }

  lemma SameNames(claimed: seq<string>, prefix: string, desired: set<string>, named: set<string>)
    requires desired == Desired(claimed, prefix)
    ensures named == desired <==> forall n :: n in named <==> n in claimed && prefix <= n
  {
  }

  /** After step 1 for `names`: exactly the missing groups and edges have been added. */
  ghost predicate Joined(s: Store, s': Store, userId: nat, names: set<string>) {
    && GroupsExtended(s, s', names)
    && (forall n :: n in names ==> GroupNameExists(s', n))
    && s'.memberships == s.memberships + ClaimedEdges(s', userId, names)
  }

  lemma ClaimOneMore(mid: Store, s': Store, userId: nat, done: set<string>, n: string, g: nat)
    requires NamesUnique(s') && GroupsExtended(mid, s', {n}) && g in s'.groups && s'.groups[g] == n
    requires forall k :: k in done ==> GroupNameExists(mid, k)
    ensures ClaimedEdges(s', userId, done + {n}) == ClaimedEdges(mid, userId, done) + {Membership(g, UserRef(userId))}
  {
    forall h | h in s'.groups && s'.groups[h] in done ensures h in mid.groups {
      var k :| k in mid.groups && mid.groups[k] == s'.groups[h];
      assert k in s'.groups && s'.groups[k] == s'.groups[h];
    }
  }

  lemma ExtendTwice(s: Store, mid: Store, s': Store, done: set<string>, n: string)
    requires GroupsExtended(s, mid, done) && GroupsExtended(mid, s', {n})
    ensures GroupsExtended(s, s', done + {n})
  {
    if s'.groups == s.groups {
      assert mid.groups.Keys == s.groups.Keys;
      assert mid.groups == s.groups;
    }
  }

  lemma NamesStay(mid: Store, s': Store, done: set<string>, n: string)
    requires GroupsExtended(mid, s', {n}) && GroupNameExists(s', n)
    requires forall k :: k in done ==> GroupNameExists(mid, k)
    ensures forall k :: k in done + {n} ==> GroupNameExists(s', k)
  {
    forall k | k in done ensures GroupNameExists(s', k) {
      var h :| h in mid.groups && mid.groups[h] == k;
      assert h in s'.groups && s'.groups[h] == k;
    }
  }

  lemma JoinOneMore(s: Store, mid: Store, s': Store, userId: nat, done: set<string>, n: string, g: nat)
    requires NamesUnique(s') && Joined(s, mid, userId, done)
    requires GroupsExtended(mid, s', {n}) && g in s'.groups && s'.groups[g] == n
    requires s'.memberships == mid.memberships + {Membership(g, UserRef(userId))}
    ensures Joined(s, s', userId, done + {n})
  {
    ClaimOneMore(mid, s', userId, done, n, g);
    ExtendTwice(s, mid, s', done, n);
    NamesStay(mid, s', done, n);
  }

  lemma RevokeAfterJoin(s: Store, mid: Store, s': Store, userId: nat, prefix: string, desired: set<string>)
    requires EdgesClosed(s) && EdgesClosed(mid) && Joined(s, mid, userId, desired)
    requires forall n :: n in desired ==> prefix <= n
    requires s' == mid.(memberships := s'.memberships)
    requires s'.memberships == set e | e in mid.memberships && !Unclaimed(mid.groups, e, userId, prefix, desired)
    ensures Synced(s, s', userId, prefix, desired)
  {
    forall e ensures e in s'.memberships <==> e in Untouched(s, userId, prefix) + ClaimedEdges(s', userId, desired) {
      if e in s.memberships { assert mid.groups[e.groupId] == s.groups[e.groupId]; }
    }
  }

  /** No group of a consistent store carries an empty name or one with surrounding white space. */
  lemma UntrimmedNeverMatches(s: Store, userId: nat, prefix: string, desired: set<string>)
    requires Consistent(s)
    ensures DirectPrefixNames(s, userId, prefix) == desired ==> Storable(desired)
  {
  }

  /** A claim with a trailing space: the group is created without it, and no state ever meets the claim. */
  lemma TrailingSpaceNeverSyncs(s: Store, userId: nat)
    requires Consistent(s) && s.groups == map[]
    ensures Desired(["app:eng "], "app:") == {"app:eng "}
    ensures Apply(s, Op.CreateGroup("app:eng ")).0.groups == map[s.lastGroupId + 1 := "app:eng"]
    ensures forall s' :: Consistent(s') ==> DirectPrefixNames(s', userId, "app:") != {"app:eng "}
  {
    var claim := "app:eng ";
    assert claim in ["app:eng "] && "app:" <= claim;
    assert !Trimmed(claim) && claim in {claim};
    assert claim[..7] == "app:eng" && StripRight(claim) == StripRight("app:eng") == "app:eng";
    assert Strip(claim) == "app:eng";
    forall s' | Consistent(s') ensures DirectPrefixNames(s', userId, "app:") != {claim} {
      UntrimmedNeverMatches(s', userId, "app:", {claim});
    }
  }

  /** A synced store: exactly the claimed prefix groups, and nothing else touched. */
  lemma SyncIsExact(s: Store, s': Store, userId: nat, prefix: string, desired: set<string>)
    requires Consistent(s) && Synced(s, s', userId, prefix, desired)
    requires forall n :: n in desired ==> prefix <= n
    ensures DirectPrefixNames(s', userId, prefix) == desired
    ensures forall e: Membership ::
              (e.member == UserRef(userId) ==> e.groupId in s'.groups && !(prefix <= s'.groups[e.groupId])) ==>
                (e in s'.memberships <==> e in s.memberships)
  {
    forall n | n in desired ensures n in DirectPrefixNames(s', userId, prefix) {
      var g :| g in s'.groups && s'.groups[g] == n;
      assert Membership(g, UserRef(userId)) in ClaimedEdges(s', userId, desired);
    }
    forall g | g in s'.groups && Membership(g, UserRef(userId)) in s'.memberships && prefix <= s'.groups[g]
      ensures s'.groups[g] in desired
    {
      assert Membership(g, UserRef(userId)) !in Untouched(s, userId, prefix);
    }
  }

  /** A second sync with the same claim changes nothing at all. */
  lemma SyncIsIdempotent(s: Store, s': Store, s'': Store, userId: nat, prefix: string, desired: set<string>)
    requires Consistent(s) && Consistent(s') && Consistent(s'')
    requires forall n :: n in desired ==> prefix <= n
    requires Synced(s, s', userId, prefix, desired) && Synced(s', s'', userId, prefix, desired)
    ensures s'' == s'
  {
    SyncIsExact(s, s', userId, prefix, desired);
    SettledSync(s', s'', userId, prefix, desired);
  }

  /** A sync of a store whose prefix groups are already exactly the claimed ones. */
  lemma SettledSync(s': Store, s'': Store, userId: nat, prefix: string, desired: set<string>)
    requires EdgesClosed(s') && NamesUnique(s'') && Synced(s', s'', userId, prefix, desired)
    requires DirectPrefixNames(s', userId, prefix) == desired
    ensures s'' == s'
  {
    forall g | g in s''.groups ensures g in s'.groups {
      if s''.groups[g] in desired {
        var h :| h in s'.groups && Membership(h, UserRef(userId)) in s'.memberships && s'.groups[h] == s''.groups[g];
        assert h in s''.groups && s''.groups[h] == s''.groups[g];
      }
    }
    assert s''.groups.Keys == s'.groups.Keys;
    assert s''.groups == s'.groups;
    forall e ensures e in s''.memberships <==> e in s'.memberships {
      if e in ClaimedEdges(s'', userId, desired) {
        var g :| g in s'.groups && Membership(g, UserRef(userId)) in s'.memberships
            && s'.groups[g] == s''.groups[e.groupId];
      }
      if e in s'.memberships && e !in Untouched(s', userId, prefix) {
        assert s'.groups[e.groupId] in DirectPrefixNames(s', userId, prefix);
      }
    }
  }
}
