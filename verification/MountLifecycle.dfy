/**
 The two procedures that drive a mount's life, as uninterrupted calls: the TTL sweep and the admission of
 an agent. MountInterleaving splits both at every await.
 */
module MountLifecycle {
  import opened Prelude
  import opened MountRegistry

  /** The relay's settings: TTL cap, warning window and the code of the built-in local mount. */
  datatype Config = Config(maxTtl: int, warningWindow: real, dropboxCode: string)

  // ---------------------------------------------------------------------------
  // The TTL sweep
  // ---------------------------------------------------------------------------

  predicate Overdue(row: Row, now: real) {
    row.status == Online && row.expiresAt.Some? && row.expiresAt.value <= now
  }

  predicate NearExpiry(row: Row, now: real, window: real) {
    row.status == Online && row.expiresAt.Some? && 0.0 < row.expiresAt.value - now <= window && !row.ttlWarned
  }

  /** What raises during a sweep: sends that fail, and mounts whose registry call (expire or mark) fails. */
  datatype Faults = Faults(unsent: set<string>, failed: set<string>)

  /** A warning goes out on the wire: the mount has a connection and the send succeeds. */
  predicate Warns(s: Registry, code: string, now: real, window: real, io: Faults) {
    code in s.rows && NearExpiry(s.rows[code], now, window) && code in s.connections && code !in io.unsent
  }

  /** A failed send or mark leaves the flag alone, so that the next sweep tries again. */
  function SweptRow(s: Registry, code: string, now: real, window: real, io: Faults): Row
    requires code in s.rows
  {
    var row := s.rows[code];
    if code in io.failed then row
    else if Overdue(row, now) then row.(status := Expired)
    else if NearExpiry(row, now, window) && (code !in s.connections || code !in io.unsent) then row.(ttlWarned := true)
    else row
  }

  predicate Dropped(s: Registry, code: string, now: real, io: Faults) {
    code in s.rows && Overdue(s.rows[code], now) && code !in io.failed
  }

  /** The sweep restricted to the codes in `done`, before retention cleanup. */
  function SweptPart(s: Registry, done: set<string>, now: real, window: real, io: Faults): Registry {
    Registry(
      map code | code in s.rows :: if code in done then SweptRow(s, code, now, window, io) else s.rows[code],
      map code | code in s.connections && !(code in done && Dropped(s, code, now, io)) :: s.connections[code],
      s.closed + (set code | code in s.connections && code in done && Dropped(s, code, now, io) :: s.connections[code]))
  }

  function Sweep(s: Registry, now: real, window: real, io: Faults): Registry {
    DeleteExpiredBefore(SweptPart(s, s.rows.Keys, now, window, io), now - RETENTION_SECONDS)
  }

  /** Nothing happens to a code that is not active. */
  lemma InactiveUntouched(s: Registry, done: set<string>, now: real, window: real, io: Faults)
    requires forall code :: code in s.rows && s.rows[code].status != Expired ==> code in done
    ensures SweptPart(s, done, now, window, io) == SweptPart(s, s.rows.Keys, now, window, io)
  {
    var a, b := SweptPart(s, done, now, window, io), SweptPart(s, s.rows.Keys, now, window, io);
    assert forall code :: code in s.rows && code !in done ==> SweptRow(s, code, now, window, io) == s.rows[code];
    assert a.rows == b.rows;
    assert a.connections == b.connections;
    assert a.closed == b.closed;
  }

  lemma SweptNothing(s: Registry, now: real, window: real, io: Faults)
    ensures SweptPart(s, {}, now, window, io) == s
  {
    var part := SweptPart(s, {}, now, window, io);
    assert s.rows == part.rows && s.connections == part.connections && s.closed == part.closed;
  }

  lemma SweptOneMore(s: Registry, done: set<string>, code: string, now: real, window: real, io: Faults, next: Registry)
    requires code in s.rows && code !in done
    requires var part := SweptPart(s, done, now, window, io);
             && next.rows == part.rows[code := SweptRow(s, code, now, window, io)]
             && next.connections == (if Dropped(s, code, now, io) then part.connections - {code} else part.connections)
             && next.closed == part.closed + (if Dropped(s, code, now, io) && code in s.connections
                  then {s.connections[code]} else {})
    ensures next == SweptPart(s, done + {code}, now, window, io)
  {
    var goal := SweptPart(s, done + {code}, now, window, io);
    assert next.rows == goal.rows;
    assert next.connections == goal.connections;
    assert next.closed == goal.closed;
  }

  /** The warnings sent to the mounts in `done`, each with the time left. */
  ghost predicate Announced(warnings: seq<(string, real)>, s: Registry, done: set<string>, now: real, window: real,
                            io: Faults) {
    forall code, left :: (code, left) in warnings <==>
      code in done && Warns(s, code, now, window, io) && left == s.rows[code].expiresAt.value - now
  }

  /** One record of the snapshot `s`, after those in `done`. */
  method SweepNext(registry: SqliteMountRegistry, code: string, mount: Row, connection: Option<ConnId>, now: real,
                   window: real, io: Faults,
                   ghost s: Registry, ghost done: set<string>)
    returns (warning: Option<real>)
    requires code in s.rows && s.rows[code] == mount && code !in done
    requires connection == if code in s.connections then Some(s.connections[code]) else None
    requires registry.State() == SweptPart(s, done, now, window, io)
    modifies registry
    ensures registry.State() == SweptPart(s, done + {code}, now, window, io)
    ensures warning == if Warns(s, code, now, window, io) then Some(mount.expiresAt.value - now) else None
  {
    warning := SweepMount(registry, code, mount, connection, now, window, io);
    SweptOneMore(s, done, code, now, window, io, registry.State());
  }

  /** The sweep's loop over a snapshot of the active mounts; returns the warnings sent. */
  method SweepActive(registry: SqliteMountRegistry, now: real, window: real, io: Faults)
    returns (warnings: seq<(string, real)>)
    modifies registry
    ensures var s := old(registry.State());
            && registry.State() == SweptPart(s, s.rows.Keys, now, window, io)
            && Announced(warnings, s, s.rows.Keys, now, window, io)
  {
    ghost var s := registry.State();
    var snapshot, connections := registry.rows, registry.connections;
    var mounts := AnyOrder(set code | code in snapshot && snapshot[code].status != Expired);
    warnings := [];
    ghost var done: set<string> := {};
    SweptNothing(s, now, window, io);
    for i := 0 to |mounts|
      invariant done == set k | 0 <= k < i :: mounts[k]
      invariant registry.State() == SweptPart(s, done, now, window, io)
      invariant Announced(warnings, s, done, now, window, io)
    {
      var code := mounts[i];
      assert code in mounts;
      var connection := if code in connections then Some(connections[code]) else None;
      var warning := SweepNext(registry, code, snapshot[code], connection, now, window, io, s, done);
      if warning.Some? { warnings := warnings + [(code, warning.value)]; }
      done := done + {code};
    }
    forall code | code in s.rows && s.rows[code].status != Expired ensures code in done {
      assert code in mounts;
    }
    InactiveUntouched(s, done, now, window, io);
  }

  /**
   One uninterrupted sweep. The warnings actually sent are returned with the time they announced; a mark that
   fails afterwards does not unsend its warning.
   */
  method SweepOnce(registry: SqliteMountRegistry, now: real, window: real, io: Faults)
    returns (warnings: seq<(string, real)>)
    modifies registry
    ensures registry.State() == Sweep(old(registry.State()), now, window, io)
    ensures forall code, left :: (code, left) in warnings <==>
              && code in old(registry.rows) && code in old(registry.connections) && code !in io.unsent
              && var row := old(registry.rows)[code];
                 && row.status == Online && row.expiresAt.Some? && !row.ttlWarned
                 && left == row.expiresAt.value - now && 0.0 < left <= window
  {
    warnings := SweepActive(registry, now, window, io);
    registry.DeleteExpiredBefore(now - RETENTION_SECONDS);
  }

  /** The sweep's treatment of one mount record; returns the announced time of a warning that was sent. */
  method SweepMount(registry: SqliteMountRegistry, code: string, mount: Row, connection: Option<ConnId>, now: real,
                    window: real, io: Faults)
    returns (warning: Option<real>)
    requires code in registry.rows && registry.rows[code] == mount
    requires connection == if code in registry.connections then Some(registry.connections[code]) else None
    modifies registry
    ensures registry.rows == old(registry.rows)[code := SweptRow(old(registry.State()), code, now, window, io)]
    ensures registry.connections ==
              if Overdue(mount, now) && code !in io.failed
                  then old(registry.connections) - {code} else old(registry.connections)
    ensures registry.closed ==
              old(registry.closed) + (if Overdue(mount, now) && code !in io.failed && connection.Some?
                  then {connection.value} else {})
    ensures warning == if Warns(old(registry.State()), code, now, window, io)
            then Some(mount.expiresAt.value - now) else None
  {
    warning := None;
    if mount.expiresAt.None? || mount.status != Online {
      return;
    }
    var remaining := mount.expiresAt.value - now;
    if remaining <= 0.0 {
      if code in io.failed {
        return;
      }
      var _ := registry.Expire(code);
      if connection.Some? {
        registry.closed := registry.closed + {connection.value};
      }
    } else if remaining <= window && !mount.ttlWarned {
      if connection.Some? {
        if code in io.unsent {
          return;
        }
        warning := Some(remaining);
      }
      if code in io.failed {
        return;
      }
      var _ := registry.MarkTtlWarned(code);
    }
  }

  /**
   The table and the connection map after a sweep. An ONLINE row at or past its deadline is EXPIRED unless its
   expire call failed; an unwarned ONLINE row within the window is marked unless its send or its mark failed;
   EXPIRED rows more than six hours past their deadline go; everything else stays as it was.
   */
  lemma SweepIsExact(s: Registry, now: real, window: real, io: Faults, code: string)
    requires code in s.rows
    ensures var s', row := Sweep(s, now, window, io), s.rows[code];
            var timed, fails := row.status == Online && row.expiresAt.Some?, code in io.failed;
            var expires := timed && row.expiresAt.value <= now && !fails;
            var marked := timed && now < row.expiresAt.value <= now + window && !fails
                          && (code !in s.connections || code !in io.unsent);
            var stays := !((expires || row.status == Expired) && row.expiresAt.Some?
                           && row.expiresAt.value < now - 21600.0);
            && (code in s'.rows <==> stays)
            && (stays ==> s'.rows[code] == row.(status := if expires then Expired else row.status,
                                                ttlWarned := row.ttlWarned || marked))
            && (code in s'.connections <==> code in s.connections && !expires)
            && (code in s'.connections ==> s'.connections[code] == s.connections[code])
  {
  }

  /** A sweep inserts no row and closes exactly the connections of the mounts it expires. */
  lemma SweepClosesExactly(s: Registry, now: real, window: real, io: Faults, conn: ConnId)
    ensures var s' := Sweep(s, now, window, io);
            && s'.rows.Keys <= s.rows.Keys
            && (conn in s'.closed <==>
                  || conn in s.closed
                  || (exists code :: code in s.connections && s.connections[code] == conn && code !in io.failed
                                     && code in s.rows && s.rows[code].status == Online
                                     && s.rows[code].expiresAt.Some? && s.rows[code].expiresAt.value <= now))
  {
  }

  // ---------------------------------------------------------------------------
  // Admission of an agent
  // ---------------------------------------------------------------------------

  datatype AgentRequest = AgentRequest(code: Option<string>, conn: ConnId, ip: string, owner: Option<nat>,
      ttl: Option<int>)

  datatype Admission = Admitted(code: string, expiresIn: int, reclaimed: bool) | Refused

  function EffectiveTtl(ttl: Option<int>, maxTtl: int): int {
    if ttl.Some? && ttl.value < maxTtl then ttl.value else maxTtl
  }

  /** Owner reclaim first, then reclaim from the same address. */
  function ReclaimFor(s: Registry, code: string, a: AgentRequest, now: real): (Registry, Option<int>) {
    var entitled := (a.owner.Some? && SameOwner(s, code, a.owner.value)) || SameIp(s, code, a.ip);
    Reclaim(s, code, a.conn, now, entitled)
  }

  /** `spare` is the newly generated code, used when the preferred one is taken or absent. */
  function Admit(cfg: Config, s: Registry, a: AgentRequest, spare: string, now: real): (Registry, Admission) {
    if a.code == Some(cfg.dropboxCode) then (s, Refused)
    else
      var (s1, remaining) := if a.code.Some? then ReclaimFor(s, a.code.value, a, now) else (s, None);
      if remaining.Some? then (SetOwner(s1, a.code.value, a.owner), Admitted(a.code.value, remaining.value, true))
      else
        var code := if a.code.Some? && a.code.value !in s.rows then a.code.value else spare;
        var ttl := EffectiveTtl(a.ttl, cfg.maxTtl);
        if code == "" then (s, Refused)
        else
          (SetOwner(Register(s, code, Some(a.conn), a.ip, now, Some(now + ttl as real)), code, a.owner),
              Admitted(code, ttl, false))
  }

  /** The mount an agent asks for is its own to take over: OFFLINE, unexpired, and of its owner or address. */
  ghost predicate TakesOver(s: Registry, a: AgentRequest, now: real) {
    && a.code.Some? && a.code.value in s.rows
    && var row := s.rows[a.code.value];
       && row.status == Offline && (row.expiresAt.Some? ==> now < row.expiresAt.value)
       && ((a.owner.Some? && row.owner == a.owner) || row.agentIp == a.ip)
  }

  /** A take-over revives the row as it was, under the agent's owner, and reports the whole seconds left. */
  ghost predicate TakenOver(s: Registry, s': Registry, r: Admission, a: AgentRequest, now: real)
    requires TakesOver(s, a, now)
  {
    var code := a.code.value;
    var row := s.rows[code];
    && s' == Registry(s.rows[code := row.(status := Online, owner := a.owner)], s.connections[code := a.conn], s.closed)
    && r.Admitted? && r.code == code && r.reclaimed && 0 <= r.expiresIn
    && (row.expiresAt.None? ==> r.expiresIn == 0)
    && (row.expiresAt.Some? ==>
          r.expiresIn as real <= row.expiresAt.value - now < r.expiresIn as real + 1.0)
  }

  /** A new registration of `code` lives for the smaller of the asked and the greatest lifetime. */
  ghost predicate NewlyRegistered(cfg: Config, s: Registry, s': Registry, r: Admission, a: AgentRequest, code: string,
                                  now: real) {
    && r.Admitted? && r.code == code && !r.reclaimed
    && r.expiresIn <= cfg.maxTtl && (a.ttl.Some? ==> r.expiresIn <= a.ttl.value)
    && (r.expiresIn == cfg.maxTtl || a.ttl == Some(r.expiresIn))
    && var row := Row(Online, a.ip, now, Some(now + r.expiresIn as real), false, a.owner);
       s' == Registry(s.rows[code := row], s.connections[code := a.conn], s.closed)
  }

  /**
   The reserved code is refused; a mount that is the agent's to take over is taken over; every other agent
   gets a new registration, under the code it asks for when no row has it and under a generated one otherwise.
   */
  lemma AdmissionIsExact(cfg: Config, s: Registry, a: AgentRequest, spare: string, now: real)
    ensures var (s', r) := Admit(cfg, s, a, spare, now);
            if a.code == Some(cfg.dropboxCode) then s' == s && r == Refused
            else if TakesOver(s, a, now) then TakenOver(s, s', r, a, now)
            else
              var code := if a.code.Some? && a.code.value !in s.rows then a.code.value else spare;
              if code == "" then s' == s && r == Refused else NewlyRegistered(cfg, s, s', r, a, code, now)
  {
  }

  method AgentWebsocket(cfg: Config, registry: SqliteMountRegistry, a: AgentRequest, spare: string, now: real)
    returns (r: Admission)
    modifies registry`rows, registry`connections
    ensures (registry.State(), r) == Admit(cfg, old(registry.State()), a, spare, now)
  {
    if a.code == Some(cfg.dropboxCode) {
      return Refused;
    }
    var reclaimed := false;
    var remainingTtl := 0;
    var assignedCode := spare;
    if a.code.Some? {
      var result: Option<int> := None;
      if a.owner.Some? {
        result := registry.TryReclaimAsOwner(a.code.value, a.conn, a.owner.value, now);
      }
      if result.None? {
        result := registry.TryReclaim(a.code.value, a.conn, a.ip, now);
      }
      if result.Some? {
        assignedCode, reclaimed, remainingTtl := a.code.value, true, result.value;
      } else {
        var taken := registry.HasMount(a.code.value);
        if !taken {
          assignedCode := a.code.value;
        }
      }
    }
    var expiresIn := remainingTtl;
    if !reclaimed {
      expiresIn := EffectiveTtl(a.ttl, cfg.maxTtl);
      var registered := registry.Register(assignedCode, Some(a.conn), a.ip, now, Some(now + expiresIn as real));
      if registered.Failure? {
        return Refused;
      }
    }
    var _ := registry.SetOwner(assignedCode, a.owner);
    r := Admitted(assignedCode, expiresIn, reclaimed);
  }
}
