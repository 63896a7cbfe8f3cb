/**
 Share links: an in-memory cache of active links in front of the share_links table, across expiry,
 revocation and restarts. A signed token is its path and the whole second it was signed in.
 */
module ShareLinks {
  import opened Prelude

  datatype Token = Token(path: string, second: int)

  datatype Link = Link(path: string, createdAt: real, ttlSeconds: nat)

  datatype ShareError = Revoked | NotFound | LinkExpired

  /** The signer's age check at time `now`: neither too old nor from the future. */
  predicate WithinAge(token: Token, ttlSeconds: nat, now: real) {
    0 <= now.Floor - token.second <= ttlSeconds
  }

  /** The service's state: the cache, and the table when there is a data directory. */
  datatype Service = Service(active: map<Token, Link>, stored: Option<map<Token, Link>>)

  function Put(s: Service, token: Token, link: Link): Service {
    Service(s.active[token := link], if s.stored.Some? then Some(s.stored.value[token := link]) else None)
  }

  function Forget(s: Service, tokens: set<Token>): Service {
    Service(s.active - tokens, if s.stored.Some? then Some(s.stored.value - tokens) else None)
  }

  /** A new process over the same table. */
  function Reload(s: Service): Service {
    Service(if s.stored.Some? then s.stored.value else map[], s.stored)
  }

  // ---------------------------------------------------------------------------
  // Calls
  // ---------------------------------------------------------------------------

  datatype Call =
    | Create(path: string, ttlSeconds: nat)
    | Validate(token: Token)
    | Revoke(token: Token)
    | List
    | Restart

  datatype Reply =
    | Made(token: Token)
    | Path(path: string)
    | Done
    | Listed(links: map<Token, Link>)
    | Refused(error: ShareError)

  function Stale(active: map<Token, Link>, now: real): set<Token> {
    set t | t in active && !WithinAge(t, active[t].ttlSeconds, now)
  }

  function Apply(s: Service, now: real, call: Call): (Service, Reply) {
    match call
    case Create(path, ttl) =>
      var token := Token(path, now.Floor);
      (Put(s, token, Link(path, now, ttl)), Made(token))
    case Validate(token) =>
      if token !in s.active then (s, Refused(Revoked))
      else if !WithinAge(token, s.active[token].ttlSeconds, now) then (Forget(s, {token}), Refused(LinkExpired))
      else (s, Path(token.path))
    case Revoke(token) =>
      if token !in s.active then (s, Refused(NotFound)) else (Forget(s, {token}), Done)
    case List =>
      var s' := Forget(s, Stale(s.active, now));
      (s', Listed(s'.active))
    case Restart => (Reload(s), Done)
  }

  function Tokens(s: seq<Token>): set<Token> {
    set t | t in s
  }

  // ---------------------------------------------------------------------------
  // The service object
  // ---------------------------------------------------------------------------

  class ShareLinkService {
    var active: map<Token, Link>
    /** the share_links table; None without a data directory */
    var stored: Option<map<Token, Link>>

    ghost function State(): Service
      reads this
    {
      Service(active, stored)
    }

    /** Reloads the cache from the table row by row. */
    constructor (store: Option<map<Token, Link>>)
      ensures State() == Reload(Service(map[], store))
    {
      stored, active := store, map[];
      new;
      if stored.Some? {
        var tokens := AnyOrder(stored.value.Keys);
        for i := 0 to |tokens|
          invariant stored == store
          invariant forall t :: t in active <==> t in tokens[..i]
          invariant forall t :: t in active ==> t in stored.value && active[t] == stored.value[t]
        {
          assert tokens[i] in tokens;
          assert tokens[..i + 1] == tokens[..i] + [tokens[i]];
          active := active[tokens[i] := stored.value[tokens[i]]];
        }
        assert tokens[..|tokens|] == tokens;
        assert active == stored.value;
      }
    }

    method CreateLink(path: string, ttlSeconds: nat, now: real) returns (token: Token)
      modifies this
      ensures (State(), Made(token)) == Apply(old(State()), now, Create(path, ttlSeconds))
    {
      token := Token(path, now.Floor);
      var record := Link(path, now, ttlSeconds);
      active := active[token := record];
      if stored.Some? {
        stored := Some(stored.value[token := record]);
      }
    }

    method ValidateToken(token: Token, now: real) returns (r: Result<string, ShareError>)
      modifies this
      ensures State() == Apply(old(State()), now, Validate(token)).0
      ensures (match r case Success(p) => Path(p) case Failure(e) => Refused(e)) ==
              Apply(old(State()), now, Validate(token)).1
    {
      if token !in active {
        return Failure(Revoked);
      }
      var record := active[token];
      if !WithinAge(token, record.ttlSeconds, now) {
        active := active - {token};
        if stored.Some? {
          stored := Some(stored.value - {token});
        }
        return Failure(LinkExpired);
      }
      r := Success(token.path);
    }

    method RevokeLink(token: Token) returns (r: Result<(), ShareError>)
      modifies this
      ensures State() == if token in old(active) then Forget(old(State()), {token}) else old(State())
      ensures r == if token in old(active) then Success(()) else Failure(NotFound)
    {
      if token !in active {
        return Failure(NotFound);
      }
      active := active - {token};
      if stored.Some? {
        stored := Some(stored.value - {token});
      }
      r := Success(());
    }

    /** Splits a snapshot of the cache into live links and expired tokens. */
    method Partition(now: real) returns (links: map<Token, Link>, expired: seq<Token>)
      ensures links == active - Stale(active, now)
      ensures forall t :: t in expired <==> t in Stale(active, now)
    {
      var tokens := AnyOrder(active.Keys);
      links, expired := map[], [];
      for i := 0 to |tokens|
        invariant forall t :: t in links <==> t in tokens[..i] && t in active && WithinAge(t, active[t].ttlSeconds, now)
        invariant forall t :: t in links ==> t in active && links[t] == active[t]
        invariant forall t :: t in expired <==>
                  t in tokens[..i] && t in active && !WithinAge(t, active[t].ttlSeconds, now)
      {
        var token := tokens[i];
        assert token in tokens;
        assert tokens[..i + 1] == tokens[..i] + [token];
        if WithinAge(token, active[token].ttlSeconds, now) {
          links := links[token := active[token]];
        } else {
          expired := expired + [token];
        }
      }
      assert tokens[..|tokens|] == tokens;
    }

    method ForgetAll(expired: seq<Token>)
      modifies this
      ensures State() == Forget(old(State()), Tokens(expired))
    {
      for i := 0 to |expired|
        invariant active == old(active) - Tokens(expired[..i])
        invariant stored.Some? == old(stored).Some?
        invariant stored.Some? ==> stored.value == old(stored).value - Tokens(expired[..i])
      {
        assert Tokens(expired[..i + 1]) == Tokens(expired[..i]) + {expired[i]} by {
          assert expired[..i + 1] == expired[..i] + [expired[i]];
        }
        active := active - {expired[i]};
        if stored.Some? {
          stored := Some(stored.value - {expired[i]});
        }
      }
      assert expired[..|expired|] == expired;
    }

    /** The live links; the expired ones are forgotten on the way. */
    method ListActiveLinks(now: real) returns (links: map<Token, Link>)
      modifies this
      ensures (State(), Listed(links)) == Apply(old(State()), now, List)
    {
      var expired;
      links, expired := Partition(now);
      assert Tokens(expired) == Stale(active, now);
      ForgetAll(expired);
    }
  }

  // ---------------------------------------------------------------------------
  // Runs with a table, from an empty service
  // ---------------------------------------------------------------------------

  type Log = seq<(real, Call)>

  /** The clock never runs backwards. */
  ghost predicate Ordered(log: Log) {
    forall i, j :: 0 <= i < j < |log| ==> log[i].0 <= log[j].0
  }

  /** All calls of the log happen at or before `now`. */
  ghost predicate UpTo(log: Log, now: real) {
    forall i :: 0 <= i < |log| ==> log[i].0 <= now
  }

  function Run(log: Log): Service {
    if log == [] then Service(map[], Some(map[]))
    else Apply(Run(log[..|log| - 1]), log[|log| - 1].0, log[|log| - 1].1).0
  }

  /** The specification: the latest creation of the token, unless a revocation came after it. */
  function LatestLink(log: Log, token: Token): Option<Link> {
    if log == [] then None
    else
      var (at, call) := log[|log| - 1];
      if call.Create? && Token(call.path, at.Floor) == token then Some(Link(call.path, at, call.ttlSeconds))
      else if call == Revoke(token) then None
      else LatestLink(log[..|log| - 1], token)
  }

  /** The cache holds latest links only, and leaves out only those that are too old for good. */
  ghost predicate Refines(s: Service, log: Log, now: real) {
    && s.stored == Some(s.active)
    && (forall t :: t in s.active ==> LatestLink(log, t) == Some(s.active[t]))
    && (forall t :: LatestLink(log, t).Some? ==>
          && t.second <= now.Floor
          && (t !in s.active ==> now.Floor - t.second > LatestLink(log, t).value.ttlSeconds))
  }

  lemma LatestLinkNext(log: Log, at: real, call: Call, t: Token)
    ensures LatestLink(log + [(at, call)], t) ==
            if call.Create? && Token(call.path, at.Floor) == t then Some(Link(call.path, at, call.ttlSeconds))
            else if call == Revoke(t) then None else LatestLink(log, t)
  {
    assert (log + [(at, call)])[..|log|] == log;
  }

  /** One call keeps the cache in step with the table and with the specification. */
  lemma StepRefines(s: Service, log: Log, before: real, at: real, call: Call)
    requires Refines(s, log, before) && before <= at
    ensures Refines(Apply(s, at, call).0, log + [(at, call)], at)
  {
    var s' := Apply(s, at, call).0;
    var log' := log + [(at, call)];
    assert before.Floor <= at.Floor;
    forall t ensures LatestLink(log', t) ==
            if call.Create? && Token(call.path, at.Floor) == t then Some(Link(call.path, at, call.ttlSeconds))
            else if call == Revoke(t) then None else LatestLink(log, t)
    {
      LatestLinkNext(log, at, call, t);
    }
    assert s'.stored == Some(s'.active);
  }

  lemma {:induction false} RunRefines(log: Log, now: real)
    requires Ordered(log) && UpTo(log, now)
    ensures Refines(Run(log), log, now)
  {
    if log != [] {
      var n := |log| - 1;
      var (at, call) := log[n];
      RunRefines(log[..n], at);
      StepRefines(Run(log[..n]), log[..n], at, at, call);
      assert log[..n] + [(at, call)] == log;
      assert at.Floor <= now.Floor;
    }
  }

  /** After every call of every run the cache equals the table, so a restart cannot be observed. */
  lemma RestartIsUnobservable(log: Log, now: real)
    requires Ordered(log) && UpTo(log, now)
    ensures Run(log).stored == Some(Run(log).active)
    ensures Run(log + [(now, Restart)]) == Run(log)
  {
    RunRefines(log, now);
    assert (log + [(now, Restart)])[..|log|] == log;
  }

  /**
   A token validates exactly when its latest creation comes after its latest revocation and its age is
   within that creation's lifetime; the path returned is the one that was shared. A token without such a
   creation is refused as revoked, and only links that are too old are refused as expired.
   */
  lemma ValidatesExactlyWhen(log: Log, now: real, token: Token)
    requires Ordered(log) && UpTo(log, now)
    ensures var reply := Apply(Run(log), now, Validate(token)).1;
            && (reply.Path? <==>
                  && LatestLink(log, token).Some?
                  && 0 <= now.Floor - token.second <= LatestLink(log, token).value.ttlSeconds)
            && (reply.Path? ==> reply.path == LatestLink(log, token).value.path)
            && (!reply.Path? ==> reply == Refused(if token in Run(log).active then LinkExpired else Revoked))
            && (LatestLink(log, token).None? ==> reply == Refused(Revoked))
            && (reply == Refused(LinkExpired) ==>
                  LatestLink(log, token).Some? && now.Floor - token.second > LatestLink(log, token).value.ttlSeconds)
  {
    RunRefines(log, now);
    LatestLinkHasPath(log, token);
  }

  lemma {:induction false} LatestLinkHasPath(log: Log, token: Token)
    ensures LatestLink(log, token).Some? ==> LatestLink(log, token).value.path == token.path
  {
    if log != [] { LatestLinkHasPath(log[..|log| - 1], token); }
  }

  /** Listing returns exactly the links that would validate. */
  lemma ListsExactlyTheValid(log: Log, now: real, token: Token)
    requires Ordered(log) && UpTo(log, now)
    ensures var listed := Apply(Run(log), now, List).1.links;
            && (token in listed <==> Apply(Run(log), now, Validate(token)).1.Path?)
            && (token in listed ==> LatestLink(log, token) == Some(listed[token]))
  {
    RunRefines(log, now);
  }
}
