/**
 Accounts of SSO logins: the OIDC subject (section 5.7 of OpenID Connect Core 1.0) is the only key.
 Any number of callbacks run interleaved with each other and with every other store call; one store
 call is one step.
 */
module SsoLogin {
  import opened Prelude
  import opened GroupResolution
  import opened AccountStore

  const PROVIDER := "authentik"
  const ATTEMPTS := 50

  function Key(sub: string): ExternalId {
    ExternalId(PROVIDER, sub)
  }

  function Decimal(n: nat): string {
    if n < 10 then ["0123456789"[n]] else Decimal(n / 10) + ["0123456789"[n % 10]]
  }

  /** The i-th username a login tries. */
  function Candidate(base: string, i: nat): string {
    if i == 0 then base else base + "-" + Decimal(i + 1)
  }

  /** The number a string of decimal digits stands for. */
  function ValueOf(digits: string): int {
    if digits == "" then 0
    else 10 * ValueOf(digits[..|digits| - 1]) + (digits[|digits| - 1] as int - '0' as int)
  }

  /** `d` is n in decimal digits, without leading zeros. */
  ghost predicate IsNumeral(d: string, n: nat) {
    && d != "" && (forall c :: c in d ==> '0' <= c <= '9')
    && ValueOf(d) == n && (d[0] == '0' ==> d == "0")
  }

  lemma {:induction false} DecimalReads(n: nat)
    ensures IsNumeral(Decimal(n), n)
  {
    if n >= 10 {
      DecimalReads(n / 10);
      var d, last := Decimal(n / 10), "0123456789"[n % 10];
      assert (d + [last])[..|d|] == d && (d + [last])[0] == d[0];
      assert ValueOf("0") == 0;
    } else {
      assert ValueOf(Decimal(n)) == 10 * ValueOf("") + (Decimal(n)[0] as int - '0' as int);
    }
  }

  /** The first candidate is the base, the later ones are base, hyphen and the numerals from 2 on. */
  lemma CandidateIs(base: string, i: nat)
    ensures i == 0 ==> Candidate(base, i) == base
    ensures i > 0 ==> |base| < |Candidate(base, i)| && Candidate(base, i)[..|base| + 1] == base + "-"
                      && IsNumeral(Candidate(base, i)[|base| + 1..], i + 1)
  {
    if i > 0 {
      DecimalReads(i + 1);
      assert Candidate(base, i)[|base| + 1..] == Decimal(i + 1);
    }
  }

  lemma {:induction false} StripLeftKeepsTail(s: string, tail: string)
    requires exists c :: c in s && !IsSpace(c)
    ensures StripLeft(s + tail) == StripLeft(s) + tail
  {
    assert (s + tail)[0] == s[0];
    if IsSpace(s[0]) {
      assert (s + tail)[1..] == s[1..] + tail;
      StripLeftKeepsTail(s[1..], tail);
    }
  }

  lemma NumeralEndsClean(head: string, n: nat)
    ensures StripRight(head + Decimal(n)) == head + Decimal(n)
  {
    DecimalReads(n);
    var d := Decimal(n);
    assert d[|d| - 1] in d && (head + d)[|head + d| - 1] == d[|d| - 1];
  }

  /** What the store makes of a later candidate: only white space before the base name goes. */
  lemma StrippedCandidate(base: string, i: nat)
    requires Strip(base) != "" && i > 0
    ensures Strip(Candidate(base, i)) == StripLeft(base) + "-" + Decimal(i + 1)
  {
    StripBlank(base);
    StripLeftKeepsTail(base, "-" + Decimal(i + 1));
    assert Candidate(base, i) == base + ("-" + Decimal(i + 1));
    assert StripLeft(base) + ("-" + Decimal(i + 1)) == StripLeft(base) + "-" + Decimal(i + 1);
    NumeralEndsClean(StripLeft(base) + "-", i + 1);
  }

  lemma CandidateIsNotBlank(base: string, i: nat)
    requires Strip(base) != ""
    ensures Strip(Candidate(base, i)) != ""
  {
    if i > 0 { StrippedCandidate(base, i); }
  }

  /** No two attempts of a login ask the store for the same name. */
  lemma CandidatesDiffer(base: string, i: nat, j: nat)
    requires Strip(base) != "" && i < j
    ensures Strip(Candidate(base, i)) != Strip(Candidate(base, j))
  {
    StrippedCandidate(base, j);
    if i == 0 {
      StripRightTrims(StripLeft(base));
      assert |Strip(base)| <= |StripLeft(base)|;
    } else {
      StrippedCandidate(base, i);
      DecimalReads(i + 1);
      DecimalReads(j + 1);
      var head := StripLeft(base) + "-";
      assert (head + Decimal(i + 1))[|head|..] == Decimal(i + 1);
      assert (head + Decimal(j + 1))[|head|..] == Decimal(j + 1);
    }
  }

  /** `s'` is `s` with one new account, called `name` and linked to `sub`. */
  ghost predicate AccountCreated(s: Store, s': Store, sub: string, name: string) {
    && s.lastUserId + 1 in s'.users && s'.users[s.lastUserId + 1].username == name
    && s' == s.(users := s.users[s.lastUserId + 1 := s'.users[s.lastUserId + 1]], lastUserId := s.lastUserId + 1,
                identities := s.identities[Key(sub) := s.lastUserId + 1])
  }

  /** One attempt to create the account under a given name. */
  method TryCreate(store: SqliteAccountStore, sub: string, name: string, email: Option<string>, sentinel: Bytes)
    returns (r: Outcome)
    requires Consistent(store.State()) && Key(sub) !in store.identities
    modifies store`users, store`lastUserId, store`identities
    ensures Consistent(store.State())
    ensures r.Success? <==> sub != "" && Strip(name) != "" && !UsernameExists(old(store.State()), Strip(name))
    ensures r.Success? ==> r.value == Created(store.lastUserId)
    ensures r.Success? ==> AccountCreated(old(store.State()), store.State(), sub, Strip(name))
    ensures r.Failure? ==>
              && store.State() == old(store.State())
              && r.error == if sub == "" || Strip(name) == "" then InvalidArgument else UsernameTaken(Strip(name))
  {
    StepKeepsConsistent(store.State(), Op.CreateExternalUser(Key(sub), name, email, sentinel));
    r := store.CreateExternalUser(Key(sub), name, email, sentinel);
  }

  /** Consistent stores have no dangling links, so a lookup fails exactly for unlinked subjects. */
  method FindLinked(store: SqliteAccountStore, sub: string) returns (r: Result<nat, AccountError>)
    requires Consistent(store.State())
    ensures r == if Key(sub) in store.identities then Success(store.identities[Key(sub)]) else Failure(UserNotFound)
  {
    r := store.GetUserByExternalId(Key(sub));
  }

  /** The i-th candidate name belongs to an existing account. */
  ghost predicate NameTaken(s: Store, base: string, i: nat) {
    UsernameExists(s, Strip(Candidate(base, i)))
  }

  ghost predicate TakenUpTo(s: Store, base: string, n: nat) {
    forall i :: 0 <= i < n ==> NameTaken(s, base, i)
  }

  /** No login of this subject and base name can create an account. */
  ghost predicate NoName(s: Store, sub: string, base: string) {
    sub == "" || Strip(base) == "" || TakenUpTo(s, base, 50)
  }

  /** The new account carries the first candidate name that was free. */
  ghost predicate CreatedUnderFirstFree(s: Store, s': Store, sub: string, base: string) {
    exists i: nat :: i < 50 && !NameTaken(s, base, i) && TakenUpTo(s, base, i)
                     && AccountCreated(s, s', sub, Strip(Candidate(base, i)))
  }

  /** Account u carries one of the first n candidate names. */
  ghost predicate Carries(s: Store, base: string, n: nat, u: nat) {
    u in s.users && exists i :: 0 <= i < n && s.users[u].username == Strip(Candidate(base, i))
  }

  lemma NextHolderIsNew(s: Store, base: string, n: nat, u: nat)
    requires Strip(base) != "" && u in s.users && s.users[u].username == Strip(Candidate(base, n))
    ensures !Carries(s, base, n, u) && Carries(s, base, n + 1, u)
  {
    if Carries(s, base, n, u) {
      var i :| 0 <= i < n && s.users[u].username == Strip(Candidate(base, i));
      CandidatesDiffer(base, i, n);
    }
  }

  /** n taken candidates are the names of n different accounts. */
  lemma {:induction false} TakenByDifferentAccounts(s: Store, base: string, n: nat) returns (holders: set<nat>)
    requires Strip(base) != "" && TakenUpTo(s, base, n)
    ensures |holders| == n && forall u :: u in holders ==> Carries(s, base, n, u)
  {
    holders := {};
    if n > 0 {
      var rest := TakenByDifferentAccounts(s, base, n - 1);
      assert NameTaken(s, base, n - 1);
      var u :| u in s.users && s.users[u].username == Strip(Candidate(base, n - 1));
      NextHolderIsNew(s, base, n - 1, u);
      holders := rest + {u};
    }
  }

  /** A login with a subject and a name finds a free candidate as long as there are fewer than 50 accounts. */
  lemma FewAccountsNeverBlock(s: Store, sub: string, base: string)
    requires sub != "" && Strip(base) != "" && |s.users| < 50
    ensures !NoName(s, sub, base)
  {
    if TakenUpTo(s, base, 50) {
      var holders := TakenByDifferentAccounts(s, base, 50);
      SubsetIsNoLarger(holders, s.users.Keys);
    }
  }

  lemma {:induction false} SubsetIsNoLarger(a: set<nat>, b: set<nat>)
    requires a <= b
    ensures |a| <= |b|
  {
    if x :| x in a {
      SubsetIsNoLarger(a - {x}, b - {x});
    }
  }

  lemma TakenOneMore(s: Store, base: string, i: nat)
    requires TakenUpTo(s, base, i) && NameTaken(s, base, i)
    ensures TakenUpTo(s, base, i + 1)
  {
  }

  lemma CreatedHere(s: Store, s': Store, sub: string, base: string, i: nat)
    requires i < ATTEMPTS && TakenUpTo(s, base, i) && !NameTaken(s, base, i) && sub != "" && Strip(base) != ""
    requires AccountCreated(s, s', sub, Strip(Candidate(base, i)))
    ensures CreatedUnderFirstFree(s, s', sub, base) && !NoName(s, sub, base)
  {
  }

  /** One turn of the creation loop; None when the next name is to be tried. */
  method TryCandidate(store: SqliteAccountStore, sub: string, base: string, i: nat, email: Option<string>,
                      sentinel: Bytes)
    returns (r: Option<Result<nat, AccountError>>)
    requires Consistent(store.State()) && Key(sub) !in store.identities && (i > 0 ==> Strip(base) != "")
    modifies store`users, store`lastUserId, store`identities
    ensures Consistent(store.State())
    ensures (r.Some? && r.value.Failure?) <==> sub == "" || Strip(base) == ""
    ensures r.None? ==> NameTaken(store.State(), base, i)
    ensures r.Some? && r.value.Success? ==>
              && r.value.value == store.lastUserId && !NameTaken(old(store.State()), base, i)
              && AccountCreated(old(store.State()), store.State(), sub, Strip(Candidate(base, i)))
    ensures r.None? || r.value.Failure? ==> store.State() == old(store.State())
  {
    if Strip(base) != "" { CandidateIsNotBlank(base, i); }
    var created := TryCreate(store, sub, Candidate(base, i), email, sentinel);
    if created.Success? {
      return Some(Success(created.value.id));
    }
    if !created.error.UsernameTaken? {
      return Some(Failure(created.error));
    }
    var adopted := FindLinked(store, sub);
    if adopted.Success? {
      return Some(adopted);
    }
    r := None;
  }

  /** The creation loop for a subject that is not linked yet: the account gets the first free name. */
  method CreateUnderFreeName(store: SqliteAccountStore, sub: string, base: string, email: Option<string>,
                             sentinel: Bytes)
    returns (r: Result<nat, AccountError>)
    requires Consistent(store.State()) && Key(sub) !in store.identities
    modifies store`users, store`lastUserId, store`identities
    ensures Consistent(store.State())
    ensures r.Failure? <==> NoName(old(store.State()), sub, base)
    ensures r.Failure? ==> store.State() == old(store.State())
    ensures r.Success? ==>
              r.value == store.lastUserId && CreatedUnderFirstFree(old(store.State()), store.State(), sub, base)
  {
    ghost var s := store.State();
    for i := 0 to ATTEMPTS
      invariant store.State() == s
      invariant i > 0 ==> sub != "" && Strip(base) != ""
      invariant TakenUpTo(s, base, i)
    {
      var outcome := TryCandidate(store, sub, base, i, email, sentinel);
      if outcome.Some? {
        if outcome.value.Success? { CreatedHere(s, store.State(), sub, base, i); }
        return outcome.value;
      }
      TakenOneMore(s, base, i);
    }
    r := Failure(UsernameTaken(base));
  }

  /** The login as one uninterrupted call: finds the linked account or links a brand-new one. */
  method ResolveOrCreate(store: SqliteAccountStore, sub: string, base: string, email: Option<string>, sentinel: Bytes)
    returns (r: Result<nat, AccountError>)
    requires Consistent(store.State())
    modifies store`users, store`lastUserId, store`identities
    ensures Consistent(store.State())
    ensures Key(sub) in old(store.identities) ==>
            store.State() == old(store.State()) && r == Success(store.identities[Key(sub)])
    ensures r.Failure? <==> Key(sub) !in old(store.identities) && NoName(old(store.State()), sub, base)
    ensures r.Failure? ==> store.State() == old(store.State())
    ensures Key(sub) !in old(store.identities) && r.Success? ==>
              r.value == store.lastUserId && CreatedUnderFirstFree(old(store.State()), store.State(), sub, base)
    ensures sub != "" && Strip(base) != "" && |old(store.users)| < 50 ==> r.Success?
  {
    if sub != "" && Strip(base) != "" && |store.users| < 50 { FewAccountsNeverBlock(store.State(), sub, base); }
    r := FindLinked(store, sub);
    if r.Failure? {
      r := CreateUnderFreeName(store, sub, base, email, sentinel);
    }
  }

  // ---------------------------------------------------------------------------
  // Interleaved callbacks
  // ---------------------------------------------------------------------------

  /** Where a callback stands between two store calls. */
  datatype Phase = Lookup | Create(attempt: nat) | Adopt(attempt: nat) | Finished(userId: nat) | Failed

  datatype Callback = Callback(sub: string, base: string, email: Option<string>, phase: Phase)

  /** `passwordAccounts` records every id that create_user has returned so far. */
  datatype World = World(store: Store, callbacks: seq<Callback>, passwordAccounts: set<nat>)

  datatype Action =
    | Begin(sub: string, base: string, email: Option<string>)
    | Advance(callback: nat, sentinel: Bytes)
    | Other(op: Op)

  const INITIAL := World(EMPTY, [], {})

  ghost function AdvanceOne(s: Store, c: Callback, sentinel: Bytes): (Store, Phase) {
    match c.phase
    case Lookup =>
      var found := LookupExternal(s, Key(c.sub));
      (s, if found.Success? then Finished(found.value) else Create(0))
    case Create(i) =>
      if i >= ATTEMPTS then (s, Failed)
      else
        var (s', reply) := Apply(s, CreateExternalUser(Key(c.sub), Candidate(c.base, i), c.email, sentinel));
        (s', if reply.Success? then Finished(reply.value.id)
             else if reply.error.UsernameTaken? then Adopt(i) else Failed)
    case Adopt(i) =>
      var found := LookupExternal(s, Key(c.sub));
      (s, if found.Success? then Finished(found.value) else Create(i + 1))
    case _ => (s, c.phase)
  }

  /** One step of the relay: a callback starts or makes its next store call, or anybody else calls the store. */
  ghost function Step(w: World, a: Action): World {
    match a
    case Begin(sub, base, email) =>
      if sub == "" then w else w.(callbacks := w.callbacks + [Callback(sub, base, email, Lookup)])
    case Advance(k, sentinel) =>
      if k >= |w.callbacks| then w
      else
        var c := w.callbacks[k];
        var (s', phase) := AdvanceOne(w.store, c, sentinel);
        w.(store := s', callbacks := w.callbacks[k := c.(phase := phase)])
    case Other(op) =>
      if op.CreateExternalUser? then w   // only callbacks create linked accounts
      else
        var (s', reply) := Apply(w.store, op);
        World(s', w.callbacks,
              if op.CreateUser? && reply.Success? then w.passwordAccounts + {reply.value.id} else w.passwordAccounts)
  }

  ghost function Run(w: World, actions: seq<Action>): World
    decreases actions
  {
    if actions == [] then w else Run(Step(w, actions[0]), actions[1..])
  }

  ghost predicate Linked(s: Store, sub: string, userId: nat) {
    Key(sub) in s.identities && s.identities[Key(sub)] == userId
  }

  ghost predicate Sound(w: World) {
    && Consistent(w.store)
    && (forall c :: c in w.callbacks && c.phase.Finished? ==> Linked(w.store, c.sub, c.phase.userId))
    && w.passwordAccounts <= w.store.users.Keys
    && (forall k :: k in w.store.identities ==> w.store.identities[k] !in w.passwordAccounts)
  }

  /** No step ever changes or drops a link. */
  lemma StepKeepsLinks(w: World, a: Action, key: ExternalId)
    requires key in w.store.identities
    ensures var s' := Step(w, a).store; key in s'.identities && s'.identities[key] == w.store.identities[key]
  {
  }

  lemma AdvanceKeepsConsistent(s: Store, c: Callback, sentinel: Bytes)
    requires Consistent(s)
    ensures Consistent(AdvanceOne(s, c, sentinel).0)
  {
    if c.phase.Create? {
      StepKeepsConsistent(s, CreateExternalUser(Key(c.sub), Candidate(c.base, c.phase.attempt), c.email, sentinel));
    }
  }

  /** A callback's store call links its own subject to a new account, or leaves the links alone. */
  lemma AdvanceLinks(s: Store, c: Callback, sentinel: Bytes)
    ensures var (s', phase) := AdvanceOne(s, c, sentinel);
            && (phase.Finished? && !c.phase.Finished? ==> Linked(s', c.sub, phase.userId))
            && s.users.Keys <= s'.users.Keys
            && (forall k :: k in s'.identities ==>
                  (k in s.identities && s'.identities[k] == s.identities[k]) || s'.identities[k] == s.lastUserId + 1)
  {
  }

  lemma AdvanceKeepsSound(w: World, k: nat, sentinel: Bytes)
    requires Sound(w) && k < |w.callbacks|
    ensures Sound(Step(w, Advance(k, sentinel)))
  {
    var w' := Step(w, Advance(k, sentinel));
    AdvanceKeepsConsistent(w.store, w.callbacks[k], sentinel);
    AdvanceLinks(w.store, w.callbacks[k], sentinel);
    forall c | c in w'.callbacks && c.phase.Finished? ensures Linked(w'.store, c.sub, c.phase.userId) {
      if c in w.callbacks { StepKeepsLinks(w, Advance(k, sentinel), Key(c.sub)); }
    }
  }

  /** What calls other than create_external_user do to accounts and links. */
  lemma OtherCall(s: Store, op: Op)
    requires !op.CreateExternalUser?
    ensures var (s', reply) := Apply(s, op);
            && s'.identities == s.identities && s.users.Keys <= s'.users.Keys
            && (op.CreateUser? && reply.Success? ==>
                  reply.value == Created(s.lastUserId + 1) && s.lastUserId + 1 in s'.users)
  {
  }

  lemma OtherKeepsSound(w: World, op: Op)
    requires Sound(w) && !op.CreateExternalUser?
    ensures Sound(Step(w, Other(op)))
  {
    StepKeepsConsistent(w.store, op);
    OtherCall(w.store, op);
    var w' := Step(w, Other(op));
    assert w'.store.identities == w.store.identities && w'.callbacks == w.callbacks;
    assert w'.passwordAccounts <= w.passwordAccounts + {w.store.lastUserId + 1};
    forall k | k in w'.store.identities ensures w'.store.identities[k] !in w'.passwordAccounts {
      assert w.store.identities[k] in w.store.users && w.store.identities[k] != w.store.lastUserId + 1;
    }
  }

  lemma {:induction false} RunKeepsSound(w: World, actions: seq<Action>)
    requires Sound(w)
    ensures Sound(Run(w, actions))
    decreases actions
  {
    if actions != [] {
      match actions[0] {
        case Begin(_, _, _) =>
        case Advance(k, sentinel) => if k < |w.callbacks| { AdvanceKeepsSound(w, k, sentinel); }
        case Other(op) => if !op.CreateExternalUser? { OtherKeepsSound(w, op); }
      }
      RunKeepsSound(Step(w, actions[0]), actions[1..]);
    }
  }

  /**
   In every interleaving two finished logins got the same account exactly when they carried the same
   subject, and no login ever got an account made by create_user.
   */
  lemma OneAccountPerSubject(actions: seq<Action>, i: nat, j: nat)
    requires var w := Run(INITIAL, actions);
             && i < |w.callbacks| && w.callbacks[i].phase.Finished?
             && j < |w.callbacks| && w.callbacks[j].phase.Finished?
    ensures var w := Run(INITIAL, actions);
            && (w.callbacks[i].sub == w.callbacks[j].sub <==>
                  w.callbacks[i].phase.userId == w.callbacks[j].phase.userId)
            && w.callbacks[i].phase.userId !in w.passwordAccounts
  {
    EmptyIsConsistent();
    RunKeepsSound(INITIAL, actions);
    var w := Run(INITIAL, actions);
    assert w.callbacks[i] in w.callbacks && w.callbacks[j] in w.callbacks;
  }

  // ---------------------------------------------------------------------------
  // A callback that nobody interrupts
  // ---------------------------------------------------------------------------

  /** Callback k makes its next n store calls. */
  ghost function Turns(k: nat, sentinel: Bytes, n: nat): seq<Action> {
    if n == 0 then [] else [Advance(k, sentinel)] + Turns(k, sentinel, n - 1)
  }

  lemma OneTurn(w: World, k: nat, sentinel: Bytes, n: nat)
    ensures Run(w, Turns(k, sentinel, n + 1)) == Run(Step(w, Advance(k, sentinel)), Turns(k, sentinel, n))
  {
    assert Turns(k, sentinel, n + 1)[1..] == Turns(k, sentinel, n);
  }

  /** What a login that started in store `s` without a link has come to. */
  ghost predicate LoggedIn(s: Store, w: World, k: nat, c: Callback) {
    && k < |w.callbacks| && w.callbacks[k] == c.(phase := w.callbacks[k].phase)
    && (NoName(s, c.sub, c.base) ==> w.callbacks[k].phase == Failed && w.store == s)
    && (!NoName(s, c.sub, c.base) ==>
          && w.callbacks[k].phase == Finished(w.store.lastUserId)
          && CreatedUnderFirstFree(s, w.store, c.sub, c.base))
  }

  /** One creation attempt on its own: the account, the next attempt after a fruitless adoption, or the end. */
  lemma AttemptAlone(s: Store, c: Callback, i: nat, sentinel: Bytes)
    requires Key(c.sub) !in s.identities && c.phase == Create(i) && i < 50
    ensures var (s', phase) := AdvanceOne(s, c, sentinel);
            if c.sub == "" || Strip(Candidate(c.base, i)) == "" then phase == Failed && s' == s
            else if NameTaken(s, c.base, i)
            then phase == Adopt(i) && s' == s && AdvanceOne(s, c.(phase := Adopt(i)), sentinel) == (s, Create(i + 1))
            else phase == Finished(s'.lastUserId) && AccountCreated(s, s', c.sub, Strip(Candidate(c.base, i)))
  {
  }

  /** Callback k has come to another phase, and nothing else has changed. */
  ghost function At(w: World, k: nat, phase: Phase): World
    requires k < |w.callbacks|
  {
    w.(callbacks := w.callbacks[k := w.callbacks[k].(phase := phase)])
  }

  /** The callback is at its i-th attempt, after i taken names, for a subject that is not linked. */
  ghost predicate Attempting(w: World, k: nat, i: nat) {
    && k < |w.callbacks| && w.callbacks[k].phase == Create(i) && i <= 50
    && var c := w.callbacks[k];
       && Key(c.sub) !in w.store.identities && TakenUpTo(w.store, c.base, i)
       && (i > 0 ==> c.sub != "" && Strip(c.base) != "")
  }

  ghost predicate TriesNext(w: World, k: nat, i: nat)
    requires k < |w.callbacks|
  {
    var c := w.callbacks[k];
    i < 50 && c.sub != "" && Strip(c.base) != "" && NameTaken(w.store, c.base, i)
  }

  lemma AttemptTaken(w: World, k: nat, sentinel: Bytes, i: nat)
    requires Attempting(w, k, i) && TriesNext(w, k, i)
    ensures Step(Step(w, Advance(k, sentinel)), Advance(k, sentinel)) == At(w, k, Create(i + 1))
    ensures Attempting(At(w, k, Create(i + 1)), k, i + 1)
  {
    CandidateIsNotBlank(w.callbacks[k].base, i);
    AttemptAlone(w.store, w.callbacks[k], i, sentinel);
    assert Step(w, Advance(k, sentinel)) == At(w, k, Adopt(i));
    TakenOneMore(w.store, w.callbacks[k].base, i);
  }

  lemma AttemptDecides(w: World, k: nat, sentinel: Bytes, i: nat)
    requires Attempting(w, k, i) && !TriesNext(w, k, i)
    ensures LoggedIn(w.store, Step(w, Advance(k, sentinel)), k, w.callbacks[k])
  {
    var c, w' := w.callbacks[k], Step(w, Advance(k, sentinel));
    if i < 50 {
      AttemptAlone(w.store, c, i, sentinel);
      if c.sub != "" && Strip(c.base) != "" {
        CandidateIsNotBlank(c.base, i);
        CreatedHere(w.store, w'.store, c.sub, c.base, i);
      } else {
        CandidateIs(c.base, 0);
      }
    }
  }

  lemma {:induction false} AttemptsAlone(w: World, k: nat, sentinel: Bytes, i: nat) returns (n: nat)
    requires Attempting(w, k, i)
    ensures LoggedIn(w.store, Run(w, Turns(k, sentinel, n)), k, w.callbacks[k])
    decreases 50 - i
  {
    if TriesNext(w, k, i) {
      AttemptTaken(w, k, sentinel, i);
      var m := AttemptsAlone(At(w, k, Create(i + 1)), k, sentinel, i + 1);
      OneTurn(Step(w, Advance(k, sentinel)), k, sentinel, m);
      OneTurn(w, k, sentinel, m + 1);
      n := m + 2;
    } else {
      AttemptDecides(w, k, sentinel, i);
      OneTurn(w, k, sentinel, 0);
      n := 1;
    }
  }

  /** A creation attempt for a subject that was linked in the meantime changes nothing and goes on to adopt. */
  lemma AttemptWhenLinked(s: Store, c: Callback, i: nat, sentinel: Bytes)
    requires Consistent(s) && Key(c.sub) in s.identities && c.sub != ""
    requires c.phase == Create(i) && i < 50 && Strip(Candidate(c.base, i)) != ""
    ensures AdvanceOne(s, c, sentinel) == (s, Adopt(i))
  {
  }

  lemma AdoptWhenLinked(s: Store, c: Callback, sentinel: Bytes)
    requires Consistent(s) && Key(c.sub) in s.identities && (c.phase.Adopt? || c.phase.Lookup?)
    ensures AdvanceOne(s, c, sentinel) == (s, Finished(s.identities[Key(c.sub)]))
  {
  }

  /**
   A concurrent first login of the same subject: however far a callback has got when the other one links the
   subject, its next lookup, or its next attempt and the adoption after it, give it that account.
   */
  lemma LoserAdopts(w: World, k: nat, sentinel: Bytes) returns (n: nat)
    requires Consistent(w.store) && k < |w.callbacks|
    requires var c := w.callbacks[k];
             && c.sub != "" && Strip(c.base) != "" && Key(c.sub) in w.store.identities
             && (c.phase.Lookup? || c.phase.Adopt? || (c.phase.Create? && c.phase.attempt < 50))
    ensures n <= 2
    ensures var c := w.callbacks[k];
            Run(w, Turns(k, sentinel, n)) == At(w, k, Finished(w.store.identities[Key(c.sub)]))
  {
    var c := w.callbacks[k];
    if c.phase.Create? {
      CandidateIsNotBlank(c.base, c.phase.attempt);
      AttemptWhenLinked(w.store, c, c.phase.attempt, sentinel);
      var w1 := At(w, k, Adopt(c.phase.attempt));
      assert Step(w, Advance(k, sentinel)) == w1;
      AdoptWhenLinked(w1.store, w1.callbacks[k], sentinel);
      OneTurn(w1, k, sentinel, 0);
      OneTurn(w, k, sentinel, 1);
      n := 2;
    } else {
      AdoptWhenLinked(w.store, c, sentinel);
      OneTurn(w, k, sentinel, 0);
      n := 1;
    }
  }

  /** What a callback left alone from its lookup on has come to. */
  ghost predicate LoginDone(w: World, w': World, k: nat)
    requires k < |w.callbacks|
  {
    var c := w.callbacks[k];
    if Key(c.sub) in w.store.identities
    then w' == At(w, k, Finished(w.store.identities[Key(c.sub)]))
    else LoggedIn(w.store, w', k, c)
  }

  /** The world after callback k's lookup. */
  ghost function LookedUp(w: World, k: nat): World
    requires k < |w.callbacks|
  {
    var c := w.callbacks[k];
    var linked := Key(c.sub) in w.store.identities;
    At(w, k, if linked then Finished(w.store.identities[Key(c.sub)]) else Create(0))
  }

  lemma LookupAlone(w: World, k: nat, sentinel: Bytes)
    requires Consistent(w.store) && k < |w.callbacks| && w.callbacks[k].phase == Lookup
    ensures Step(w, Advance(k, sentinel)) == LookedUp(w, k)
  {
  }

  lemma AfterLookup(w: World, k: nat, sentinel: Bytes) returns (m: nat)
    requires k < |w.callbacks|
    ensures LoginDone(w, Run(LookedUp(w, k), Turns(k, sentinel, m)), k)
  {
    if Key(w.callbacks[k].sub) in w.store.identities {
      m := 0;
    } else {
      m := AttemptsAlone(LookedUp(w, k), k, sentinel, 0);
    }
  }

  /**
   A callback left alone from its lookup to the end does what one uninterrupted login does: the linked
   account, or a new one under the first free candidate, or a failure when there is no name for it.
   */
  lemma LoginAlone(w: World, k: nat, sentinel: Bytes) returns (n: nat)
    requires Consistent(w.store) && k < |w.callbacks| && w.callbacks[k].phase == Lookup
    ensures LoginDone(w, Run(w, Turns(k, sentinel, n)), k)
  {
    LookupAlone(w, k, sentinel);
    var m := AfterLookup(w, k, sentinel);
    OneTurn(w, k, sentinel, m);
    n := m + 1;
  }

  /** A link, once made, is the same in every later state of every run. */
  lemma {:induction false} LinksAreForever(w: World, actions: seq<Action>, key: ExternalId)
    requires key in w.store.identities
    ensures var s' := Run(w, actions).store; key in s'.identities && s'.identities[key] == w.store.identities[key]
    decreases actions
  {
    if actions != [] {
      StepKeepsLinks(w, actions[0], key);
      LinksAreForever(Step(w, actions[0]), actions[1..], key);
    }
  }
}
