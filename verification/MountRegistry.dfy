/**
 The mount registry: rows of the mounts table plus the in-memory map of live connections. Each public
 call is one atomic step; times are real numbers.
 */
module MountRegistry {
  import opened Prelude

  const RETENTION_SECONDS := 21600.0

  datatype Status = Online | Offline | Expired

  datatype Row = Row(
    status: Status,
    agentIp: string,
    createdAt: real,
    expiresAt: Option<real>,
    ttlWarned: bool,
    owner: Option<nat>)

  /** A tunnel connection, by identity. */
  type ConnId = nat

  /** `closed` are the connections whose is_closed is set. */
  datatype Registry = Registry(rows: map<string, Row>, connections: map<string, ConnId>, closed: set<ConnId>)

  const EMPTY := Registry(map[], map[], {})

  datatype MountError = EmptyCode | MountNotFound | MountOffline | MountExpired | NoTunnel

  // ---------------------------------------------------------------------------
  // Calls
  // ---------------------------------------------------------------------------

  function SetStatus(s: Registry, code: string, status: Status): Registry
    requires code in s.rows
  {
    s.(rows := s.rows[code := s.rows[code].(status := status)])
  }

  function Register(s: Registry, code: string, conn: Option<ConnId>, ip: string, createdAt: real,
                    expiresAt: Option<real>): Registry {
    if code == "" then s
    else
      s.(rows := s.rows[code := Row(Online, ip, createdAt, expiresAt, false, None)],
         connections := if conn.Some? then s.connections[code := conn.value] else s.connections)
  }

  function Deregister(s: Registry, code: string): Registry {
    if code !in s.rows then s else s.(rows := s.rows - {code}, connections := s.connections - {code})
  }

  function LookUp(s: Registry, code: string): Result<ConnId, MountError> {
    if code !in s.rows then Failure(MountNotFound)
    else if s.rows[code].status == Offline then Failure(MountOffline)
    else if s.rows[code].status == Expired then Failure(MountExpired)
    else if code !in s.connections then Failure(NoTunnel)
    else if s.connections[code] in s.closed then Failure(MountOffline)
    else Success(s.connections[code])
  }

  function MarkOffline(s: Registry, code: string): Registry {
    if code !in s.rows || s.rows[code].status != Online then s
    else SetStatus(s, code, Offline).(connections := s.connections - {code})
  }

  function Expire(s: Registry, code: string): Registry {
    if code !in s.rows then s else SetStatus(s, code, Expired).(connections := s.connections - {code})
  }

  function MarkTtlWarned(s: Registry, code: string): Registry {
    if code !in s.rows then s else s.(rows := s.rows[code := s.rows[code].(ttlWarned := true)])
  }

  predicate Reclaimable(s: Registry, code: string, now: real) {
    && code in s.rows && s.rows[code].status == Offline
    && (s.rows[code].expiresAt.Some? ==> now < s.rows[code].expiresAt.value)
  }

  function RemainingTtl(row: Row, now: real): int {
    if row.expiresAt.Some? then (row.expiresAt.value - now).Floor else 0
  }

  /** The common part of both reclaims; `entitled` is the IP or the owner check. */
  function Reclaim(s: Registry, code: string, conn: ConnId, now: real, entitled: bool): (Registry, Option<int>) {
    if !Reclaimable(s, code, now) || !entitled then (s, None)
    else
      (SetStatus(s, code, Online).(connections := s.connections[code := conn]), Some(RemainingTtl(s.rows[code], now)))
  }

  predicate SameIp(s: Registry, code: string, ip: string) {
    code in s.rows && s.rows[code].agentIp == ip
  }

  predicate SameOwner(s: Registry, code: string, owner: nat) {
    code in s.rows && s.rows[code].owner == Some(owner)
  }

  predicate PastRetention(row: Row, cutoff: real) {
    row.status == Expired && row.expiresAt.Some? && row.expiresAt.value < cutoff
  }

  function DeleteExpiredBefore(s: Registry, cutoff: real): Registry {
    s.(rows := map code | code in s.rows && !PastRetention(s.rows[code], cutoff) :: s.rows[code])
  }

  function SetOwner(s: Registry, code: string, owner: Option<nat>): Registry {
    if code !in s.rows then s else s.(rows := s.rows[code := s.rows[code].(owner := owner)])
  }

  function CloseConn(s: Registry, conn: ConnId): Registry {
    s.(closed := s.closed + {conn})
  }

  /** The row of a mount after a cold start: overdue rows expire, the rest go offline. */
  function RestartedRow(row: Row, now: real): Row {
    if row.expiresAt.Some? && row.expiresAt.value < now then row.(status := Expired)
    else if row.status == Online then row.(status := Offline)
    else row
  }

  /** A new process: the connection map is empty and the table is cleaned up. */
  function Restart(s: Registry, now: real): Registry {
    var kept := DeleteExpiredBefore(s, now - RETENTION_SECONDS).rows;
    Registry(map code | code in kept :: RestartedRow(kept[code], now), map[], s.closed)
  }

  datatype Op =
    | DoRegister(code: string, tunnel: Option<ConnId>, ip: string, createdAt: real, expiresAt: Option<real>)
    | DoDeregister(code: string)
    | DoMarkOffline(code: string)
    | DoExpire(code: string)
    | DoMarkTtlWarned(code: string)
    | DoReclaim(code: string, conn: ConnId, ip: string, now: real)
    | DoReclaimAsOwner(code: string, conn: ConnId, owner: nat, now: real)
    | DoDeleteExpiredBefore(cutoff: real)
    | DoSetOwner(code: string, newOwner: Option<nat>)
    | DoCloseConn(conn: ConnId)
    | DoRestart(now: real)

  function Step(s: Registry, op: Op): Registry {
    match op
    case DoRegister(code, conn, ip, createdAt, expiresAt) => Register(s, code, conn, ip, createdAt, expiresAt)
    case DoDeregister(code) => Deregister(s, code)
    case DoMarkOffline(code) => MarkOffline(s, code)
    case DoExpire(code) => Expire(s, code)
    case DoMarkTtlWarned(code) => MarkTtlWarned(s, code)
    case DoReclaim(code, conn, ip, now) => Reclaim(s, code, conn, now, SameIp(s, code, ip)).0
    case DoReclaimAsOwner(code, conn, owner, now) => Reclaim(s, code, conn, now, SameOwner(s, code, owner)).0
    case DoDeleteExpiredBefore(cutoff) => DeleteExpiredBefore(s, cutoff)
    case DoSetOwner(code, owner) => SetOwner(s, code, owner)
    case DoCloseConn(conn) => CloseConn(s, conn)
    case DoRestart(now) => Restart(s, now)
  }

  function Run(s: Registry, ops: seq<Op>): Registry
    decreases ops
  {
    if ops == [] then s else Run(Step(s, ops[0]), ops[1..])
  }

  // ---------------------------------------------------------------------------
  // The two stores agree
  // ---------------------------------------------------------------------------

  /** Only ONLINE rows have an entry in the connection map. */
  ghost predicate ConnectionsOnline(s: Registry) {
    forall code :: code in s.connections ==> code in s.rows && s.rows[code].status == Online
  }

  lemma StepKeepsConnectionsOnline(s: Registry, op: Op)
    requires ConnectionsOnline(s)
    ensures ConnectionsOnline(Step(s, op))
  {
  }

  lemma {:induction false} RunKeepsConnectionsOnline(s: Registry, ops: seq<Op>)
    requires ConnectionsOnline(s)
    ensures ConnectionsOnline(Run(s, ops))
    decreases ops
  {
    if ops != [] {
      StepKeepsConnectionsOnline(s, ops[0]);
      RunKeepsConnectionsOnline(Step(s, ops[0]), ops[1..]);
    }
  }

  /** Over every run of calls and restarts the map only has ONLINE keys and only open connections are handed out. */
  lemma EveryRunAgrees(ops: seq<Op>, code: string)
    ensures var s := Run(EMPTY, ops);
            && (code in s.connections ==> code in s.rows && s.rows[code].status == Online)
            && (LookUp(s, code).Success? ==>
                  code in s.connections && LookUp(s, code).value == s.connections[code]
                      && s.connections[code] !in s.closed)
  {
    RunKeepsConnectionsOnline(EMPTY, ops);
  }

  /**
   An EXPIRED row becomes ONLINE in one call exactly when that call is a registration of its code: no
   reclaim, mark_offline, sweep step or restart revives it.
   */
  lemma RevivedOnlyByRegister(s: Registry, op: Op, code: string)
    requires code in s.rows && s.rows[code].status == Expired
    ensures (code in Step(s, op).rows && Step(s, op).rows[code].status != Expired) <==>
            (op.DoRegister? && op.code == code && code != "")
  {
  }

  /**
   A restart leaves no row ONLINE and no row overdue but unexpired; exactly the rows past retention go, and
   deadlines, owners and warning flags survive.
   */
  lemma RestartIsExact(s: Registry, now: real, code: string)
    ensures var s' := Restart(s, now);
            && s'.connections == map[]
            && (code in s'.rows <==>
                  code in s.rows && !(s.rows[code].status == Expired && s.rows[code].expiresAt.Some?
                                      && s.rows[code].expiresAt.value < now - 21600.0))
            && (code in s'.rows ==>
                  && s'.rows[code].status != Online
                  && (s'.rows[code].status == Expired <==>
                        s.rows[code].status == Expired || (s.rows[code].expiresAt.Some?
                            && s.rows[code].expiresAt.value < now))
                  && s'.rows[code].(status := Online) == s.rows[code].(status := Online))
  {
  }

  /** A reclaim reports the whole seconds that are left, never a negative number, and keeps the deadline. */
  lemma ReclaimReportsTimeLeft(s: Registry, code: string, conn: ConnId, now: real, entitled: bool)
    ensures var (s', left) := Reclaim(s, code, conn, now, entitled);
            && (left.Some? <==> entitled && Reclaimable(s, code, now))
            && (left.None? ==> s' == s)
            && (left.Some? ==>
                  && left.value >= 0 && s'.rows[code] == s.rows[code].(status := Online)
                  && LookUp(s', code) == (if conn in s.closed then Failure(MountOffline) else Success(conn))
                  && (s.rows[code].expiresAt.Some? ==>
                        left.value as real <= s.rows[code].expiresAt.value - now < left.value as real + 1.0))
  {
  }

  /** The calls that may touch the row or the connection of `code`. */
  predicate Concerns(op: Op, code: string) {
    op.DoDeleteExpiredBefore? || op.DoRestart? || (!op.DoCloseConn? && op.code == code)
  }

  /** Every call leaves the rows and connections of all other mounts alone. */
  lemma OtherMountsUntouched(s: Registry, op: Op, code: string)
    requires !Concerns(op, code)
    ensures var s' := Step(s, op);
            && (code in s'.rows <==> code in s.rows) && (code in s.rows ==> s'.rows[code] == s.rows[code])
            && (code in s'.connections <==> code in s.connections)
            && (code in s.connections ==> s'.connections[code] == s.connections[code])
  {
  }

  /** Which calls move a row from one status to another, and nothing else does. */
  lemma StatusChangesExactlyWhen(s: Registry, op: Op, code: string)
    requires code in s.rows && code in Step(s, op).rows
    ensures var was, after := s.rows[code], Step(s, op).rows[code].status;
            var overdue := was.expiresAt.Some? && op.DoRestart? && was.expiresAt.value < op.now;
            && (after == Online && was.status != Online <==>
                  || (was.status != Online && op.DoRegister? && op.code == code && code != "")
                  || (was.status == Offline && op.DoReclaim? && op.code == code && was.agentIp == op.ip
                       && Reclaimable(s, code, op.now))
                  || (was.status == Offline && op.DoReclaimAsOwner? && op.code == code && was.owner == Some(op.owner)
                       && Reclaimable(s, code, op.now)))
            && (after == Offline && was.status != Offline <==>
                  was.status == Online && (op == DoMarkOffline(code) || (op.DoRestart? && !overdue)))
            && (after == Expired && was.status != Expired <==>
                  was.status != Expired && (op == DoExpire(code) || overdue))
  {
  }

  /** A row that survives a call other than its own registration keeps address, creation time and deadline. */
  lemma RowFieldsKept(s: Registry, op: Op, code: string)
    requires code in s.rows && code in Step(s, op).rows && !(op.DoRegister? && op.code == code)
    ensures var was, after := s.rows[code], Step(s, op).rows[code];
            && after.agentIp == was.agentIp && after.createdAt == was.createdAt && after.expiresAt == was.expiresAt
            && after.ttlWarned == (was.ttlWarned || op == DoMarkTtlWarned(code))
            && after.owner == (if op.DoSetOwner? && op.code == code then op.newOwner else was.owner)
  {
  }

  // ---------------------------------------------------------------------------
  // Whose connection get_connection answers for
  // ---------------------------------------------------------------------------

  /** The answer for an ONLINE mount whose latest registration or reclaim stored `tunnel`. */
  function Answer(tunnel: Option<ConnId>, closed: set<ConnId>): Result<ConnId, MountError> {
    if tunnel.None? then Failure(NoTunnel) else if tunnel.value in closed
        then Failure(MountOffline) else Success(tunnel.value)
  }

  /** A registration is answered for exactly when it brings a connection or finds none in the map. */
  lemma RegisterAnswersForItself(s: Registry, code: string, conn: Option<ConnId>, ip: string, createdAt: real,
                                 expiresAt: Option<real>)
    requires code != ""
    ensures LookUp(Register(s, code, conn, ip, createdAt, expiresAt), code) == Answer(conn, s.closed) <==>
            conn.Some? || code !in s.connections
  {
  }

  /** What the latest registration or successful reclaim of each code stored (None: a local mount). */
  function Note(s: Registry, latest: map<string, Option<ConnId>>, op: Op): map<string, Option<ConnId>> {
    match op
    case DoRegister(code, conn, _, _, _) => if code == "" then latest else latest[code := conn]
    case DoReclaim(code, conn, ip, now) =>
      if Reclaim(s, code, conn, now, SameIp(s, code, ip)).1.Some? then latest[code := Some(conn)] else latest
    case DoReclaimAsOwner(code, conn, owner, now) =>
      if Reclaim(s, code, conn, now, SameOwner(s, code, owner)).1.Some? then latest[code := Some(conn)] else latest
    case _ => latest
  }

  function Latest(ops: seq<Op>): map<string, Option<ConnId>> {
    if ops == [] then map[]
    else
      var before := ops[..|ops| - 1];
      Note(Run(EMPTY, before), Latest(before), ops[|ops| - 1])
  }

  /** get_connection answers for the latest registration or reclaim of every ONLINE mount. */
  ghost predicate AnswersLatest(s: Registry, latest: map<string, Option<ConnId>>) {
    forall code :: code in s.rows && s.rows[code].status == Online ==>
      code in latest && LookUp(s, code) == Answer(latest[code], s.closed)
  }

  /** A registration without a connection hits a code that has one in the map. */
  predicate HitsOldConnection(s: Registry, op: Op) {
    op.DoRegister? && op.code != "" && op.tunnel.None? && op.code in s.connections
  }

  /** The map holds exactly what the latest registrations and reclaims of the ONLINE mounts stored. */
  ghost predicate MapIsLatest(s: Registry, latest: map<string, Option<ConnId>>) {
    forall code :: code in s.rows && s.rows[code].status == Online ==>
      code in latest && latest[code] == if code in s.connections then Some(s.connections[code]) else None
  }

  lemma StepKeepsMapLatest(s: Registry, latest: map<string, Option<ConnId>>, op: Op)
    requires MapIsLatest(s, latest) && ConnectionsOnline(s) && !HitsOldConnection(s, op)
    ensures MapIsLatest(Step(s, op), Note(s, latest, op))
  {
  }

  lemma {:induction false} RunSnoc(s: Registry, ops: seq<Op>, op: Op)
    ensures Run(s, ops + [op]) == Step(Run(s, ops), op)
    decreases ops
  {
    if ops == [] {
      assert (ops + [op])[1..] == [];
    } else {
      RunSnoc(Step(s, ops[0]), ops[1..], op);
      assert (ops + [op])[1..] == ops[1..] + [op];
    }
  }

  /** The k-th call of the run registers without a connection over a code that has one. */
  ghost predicate HitsAt(ops: seq<Op>, k: nat)
    requires k < |ops|
  {
    HitsOldConnection(Run(EMPTY, ops[..k]), ops[k])
  }

  ghost predicate Clean(ops: seq<Op>) {
    forall k :: 0 <= k < |ops| ==> !HitsAt(ops, k)
  }

  /** After the first k calls get_connection answers for the latest. */
  ghost predicate AnswersAfter(ops: seq<Op>, k: nat)
    requires k <= |ops|
  {
    AnswersLatest(Run(EMPTY, ops[..k]), Latest(ops[..k]))
  }

  lemma CleanPrefix(ops: seq<Op>, n: nat)
    requires Clean(ops) && n <= |ops|
    ensures Clean(ops[..n])
  {
    forall k | 0 <= k < n ensures !HitsAt(ops[..n], k) {
      assert ops[..n][..k] == ops[..k];
      assert !HitsAt(ops, k);
    }
  }

  lemma {:induction false} CleanRunKeepsMapLatest(ops: seq<Op>)
    requires Clean(ops)
    ensures MapIsLatest(Run(EMPTY, ops), Latest(ops))
    decreases |ops|
  {
    if ops != [] {
      var n := |ops| - 1;
      var before := ops[..n];
      CleanPrefix(ops, n);
      CleanRunKeepsMapLatest(before);
      RunKeepsConnectionsOnline(EMPTY, before);
      assert !HitsAt(ops, n);
      StepKeepsMapLatest(Run(EMPTY, before), Latest(before), ops[n]);
      RunSnoc(EMPTY, before, ops[n]);
      assert ops == before + [ops[n]];
    }
  }

  lemma MapLatestAnswers(s: Registry, latest: map<string, Option<ConnId>>)
    requires MapIsLatest(s, latest)
    ensures AnswersLatest(s, latest)
  {
  }

  /**
   Over every run from an empty registry: after every call get_connection answers for the latest
   registration or reclaim of each ONLINE mount, if and only if no registration without a connection hit a
   code that had one in the map.
   */
  lemma LatestIsAnsweredExactlyWhen(ops: seq<Op>)
    ensures (forall k :: 0 <= k <= |ops| ==> AnswersAfter(ops, k)) <==> Clean(ops)
  {
    if Clean(ops) {
      forall k | 0 <= k <= |ops| ensures AnswersAfter(ops, k) {
        CleanPrefix(ops, k);
        CleanRunKeepsMapLatest(ops[..k]);
        MapLatestAnswers(Run(EMPTY, ops[..k]), Latest(ops[..k]));
      }
    } else {
      var k :| 0 <= k < |ops| && HitsAt(ops, k);
      StaleAfterHit(ops[..k], ops[k]);
      assert ops[..k + 1] == ops[..k] + [ops[k]];
      assert !AnswersAfter(ops, k + 1);
    }
  }

  lemma StaleAfterHit(before: seq<Op>, op: Op)
    requires HitsOldConnection(Run(EMPTY, before), op)
    ensures !AnswersLatest(Run(EMPTY, before + [op]), Latest(before + [op]))
  {
    var s := Run(EMPTY, before);
    RunSnoc(EMPTY, before, op);
    assert (before + [op])[..|before|] == before;
    RegisterAnswersForItself(s, op.code, op.tunnel, op.ip, op.createdAt, op.expiresAt);
  }

  /**
   Registering a local mount (no connection) over a code with a live connection keeps the old connection
   in the map: get_connection then hands out the earlier registration's connection.
   */
  lemma LocalRegistrationKeepsOldConnection(code: string, conn: ConnId)
    requires code != ""
    ensures var s := Run(EMPTY, [DoRegister(code, Some(conn), "10.0.0.1", 0.0, None),
            DoRegister(code, None, "127.0.0.1", 1.0, None)]);
            LookUp(s, code) == Success(conn)
  {
    var first := DoRegister(code, Some(conn), "10.0.0.1", 0.0, None);
    var second := DoRegister(code, None, "127.0.0.1", 1.0, None);
    var s1 := Step(EMPTY, first);
    var s2 := Step(s1, second);
    assert Run(EMPTY, [first, second]) == Run(s1, [second]) == Run(s2, []) == s2 by {
      assert [first, second][1..] == [second] && [second][1..] == [];
    }
  }

  // ---------------------------------------------------------------------------
  // The registry object
  // ---------------------------------------------------------------------------

  class SqliteMountRegistry {
    var rows: map<string, Row>
    var connections: map<string, ConnId>
    /** the connections that have been torn down */
    var closed: set<ConnId>

    ghost function State(): Registry
      reads this
    {
      Registry(rows, connections, closed)
    }

    constructor ()
      ensures State() == EMPTY
    {
      rows, connections, closed := map[], map[], {};
    }

    method Register(code: string, connection: Option<ConnId>, agentIp: string, createdAt: real, expiresAt: Option<real>)
      returns (r: Result<(), MountError>)
      modifies this`rows, this`connections
      ensures State() == Step(old(State()), DoRegister(code, connection, agentIp, createdAt, expiresAt))
      ensures r == if code == "" then Failure(EmptyCode) else Success(())
      ensures r.Success? ==>
                && rows == old(rows)[code := Row(Online, agentIp, createdAt, expiresAt, false, None)]
                && connections ==
                     if connection.Some? then old(connections)[code := connection.value] else old(connections)
      ensures r.Failure? ==> rows == old(rows) && connections == old(connections)
    {
      if code == "" {
        return Failure(EmptyCode);
      }
      rows := rows[code := Row(Online, agentIp, createdAt, expiresAt, false, None)];
      if connection.Some? {
        connections := connections[code := connection.value];
      }
      r := Success(());
    }

    method Deregister(code: string) returns (r: Result<(), MountError>)
      modifies this`rows, this`connections
      ensures State() == Step(old(State()), DoDeregister(code))
      ensures r == if code in old(rows) then Success(()) else Failure(MountNotFound)
      ensures r.Success? ==> code !in rows && code !in connections
      ensures r.Failure? ==> rows == old(rows) && connections == old(connections)
    {
      if code !in rows {
        return Failure(MountNotFound);
      }
      rows := rows - {code};
      connections := connections - {code};
      r := Success(());
    }

    /** The live connection of an ONLINE mount; a torn-down one that lingers counts as offline. */
    method GetConnection(code: string) returns (r: Result<ConnId, MountError>)
      ensures r.Success? ==> code in rows && rows[code].status == Online && code in connections
                             && r.value == connections[code] && r.value !in closed
      ensures code !in rows ==> r == Failure(MountNotFound)
      ensures code in rows && rows[code].status == Offline ==> r == Failure(MountOffline)
      ensures code in rows && rows[code].status == Expired ==> r == Failure(MountExpired)
      ensures code in rows && rows[code].status == Online && code !in connections ==> r == Failure(NoTunnel)
      ensures code in rows && rows[code].status == Online && code in connections ==>
                r == if connections[code] in closed then Failure(MountOffline) else Success(connections[code])
      ensures r == LookUp(State(), code)
    {
      if code !in rows {
        return Failure(MountNotFound);
      }
      if rows[code].status == Offline {
        return Failure(MountOffline);
      }
      if rows[code].status == Expired {
        return Failure(MountExpired);
      }
      if code !in connections {
        return Failure(NoTunnel);
      }
      if connections[code] in closed {
        return Failure(MountOffline);
      }
      r := Success(connections[code]);
    }

    method MarkOffline(code: string) returns (r: Result<(), MountError>)
      modifies this`rows, this`connections
      ensures State() == Step(old(State()), DoMarkOffline(code))
      ensures r == if code in old(rows) then Success(()) else Failure(MountNotFound)
      ensures code in old(rows) && old(rows)[code].status == Online ==>
                && rows == old(rows)[code := old(rows)[code].(status := Offline)]
                && connections == old(connections) - {code}
      ensures !(code in old(rows) && old(rows)[code].status == Online) ==>
                rows == old(rows) && connections == old(connections)
    {
      if code !in rows {
        return Failure(MountNotFound);
      }
      if rows[code].status == Online {
        rows := rows[code := rows[code].(status := Offline)];
        connections := connections - {code};
      }
      r := Success(());
    }

    method Expire(code: string) returns (r: Result<(), MountError>)
      modifies this`rows, this`connections
      ensures State() == Step(old(State()), DoExpire(code))
      ensures r == if code in old(rows) then Success(()) else Failure(MountNotFound)
      ensures r.Success? ==>
                && rows == old(rows)[code := old(rows)[code].(status := Expired)]
                && connections == old(connections) - {code}
      ensures r.Failure? ==> rows == old(rows) && connections == old(connections)
    {
      if code !in rows {
        return Failure(MountNotFound);
      }
      rows := rows[code := rows[code].(status := Expired)];
      connections := connections - {code};
      r := Success(());
    }

    method MarkTtlWarned(code: string) returns (r: Result<(), MountError>)
      modifies this`rows
      ensures State() == Step(old(State()), DoMarkTtlWarned(code))
      ensures r == if code in old(rows) then Success(()) else Failure(MountNotFound)
      ensures rows == if r.Success? then old(rows)[code := old(rows)[code].(ttlWarned := true)] else old(rows)
    {
      if code !in rows {
        return Failure(MountNotFound);
      }
      rows := rows[code := rows[code].(ttlWarned := true)];
      r := Success(());
    }

    method TryReclaim(code: string, connection: ConnId, agentIp: string, now: real) returns (r: Option<int>)
      modifies this`rows, this`connections
      ensures (State(), r) == Reclaim(old(State()), code, connection, now, SameIp(old(State()), code, agentIp))
      ensures r.Some? <==>
                && code in old(rows) && old(rows)[code].status == Offline && old(rows)[code].agentIp == agentIp
                && (old(rows)[code].expiresAt.Some? ==> now < old(rows)[code].expiresAt.value)
      ensures r.Some? ==>
                && rows == old(rows)[code := old(rows)[code].(status := Online)]
                && connections == old(connections)[code := connection]
                && (old(rows)[code].expiresAt.None? ==> r.value == 0)
      ensures r.None? ==> rows == old(rows) && connections == old(connections)
    {
      if code !in rows {
        return None;
      }
      var row := rows[code];
      if row.status != Offline {
        return None;
      }
      if row.agentIp != agentIp {
        return None;
      }
      if row.expiresAt.Some? && row.expiresAt.value <= now {
        return None;
      }
      rows := rows[code := row.(status := Online)];
      connections := connections[code := connection];
      r := Some(if row.expiresAt.Some? then (row.expiresAt.value - now).Floor else 0);
    }

    method TryReclaimAsOwner(code: string, connection: ConnId, owner: nat, now: real) returns (r: Option<int>)
      modifies this`rows, this`connections
      ensures (State(), r) == Reclaim(old(State()), code, connection, now, SameOwner(old(State()), code, owner))
      ensures r.Some? <==>
                && code in old(rows) && old(rows)[code].status == Offline && old(rows)[code].owner == Some(owner)
                && (old(rows)[code].expiresAt.Some? ==> now < old(rows)[code].expiresAt.value)
      ensures r.Some? ==>
                && rows == old(rows)[code := old(rows)[code].(status := Online)]
                && connections == old(connections)[code := connection]
                && (old(rows)[code].expiresAt.None? ==> r.value == 0)
      ensures r.None? ==> rows == old(rows) && connections == old(connections)
    {
      if code !in rows {
        return None;
      }
      var row := rows[code];
      if row.status != Offline {
        return None;
      }
      if row.owner.None? || row.owner.value != owner {
        return None;
      }
      if row.expiresAt.Some? && row.expiresAt.value <= now {
        return None;
      }
      rows := rows[code := row.(status := Online)];
      connections := connections[code := connection];
      r := Some(if row.expiresAt.Some? then (row.expiresAt.value - now).Floor else 0);
    }

    method HasMount(code: string) returns (r: bool)
      ensures r <==> code in rows
    {
      r := code in rows;
    }

    method DeleteExpiredBefore(cutoff: real)
      modifies this`rows
      ensures State() == Step(old(State()), DoDeleteExpiredBefore(cutoff))
      ensures forall code :: code in rows <==>
                && code in old(rows)
                && !(old(rows)[code].status == Expired && old(rows)[code].expiresAt.Some?
                     && old(rows)[code].expiresAt.value < cutoff)
      ensures forall code :: code in rows ==> rows[code] == old(rows)[code]
    {
      rows := map code | code in rows && !PastRetention(rows[code], cutoff) :: rows[code];
    }

    method SetOwner(code: string, owner: Option<nat>) returns (r: Result<(), MountError>)
      modifies this`rows
      ensures State() == Step(old(State()), DoSetOwner(code, owner))
      ensures r == if code in old(rows) then Success(()) else Failure(MountNotFound)
      ensures rows == if r.Success? then old(rows)[code := old(rows)[code].(owner := owner)] else old(rows)
    {
      if code !in rows {
        return Failure(MountNotFound);
      }
      rows := rows[code := rows[code].(owner := owner)];
      r := Success(());
    }

    /** Cold start, statement by statement: delete the stale, expire the overdue, take the rest offline. */
    method StartupCleanup(now: real)
      modifies this`rows, this`connections
      ensures State() == Step(old(State()), DoRestart(now))
    {
      connections := map[];
      DeleteExpiredBefore(now - RETENTION_SECONDS);
      CleanupComposes(rows, now);
      rows := ExpireOverdue(rows, now);
      rows := TakeOffline(rows);
    }
  }

  /** UPDATE mounts SET status = 'expired' WHERE expires_at < now */
  function ExpireOverdue(rows: map<string, Row>, now: real): map<string, Row> {
    map code | code in rows ::
      if rows[code].expiresAt.Some? && rows[code].expiresAt.value < now
          then rows[code].(status := Expired) else rows[code]
  }

  /** UPDATE mounts SET status = 'offline' WHERE status = 'online' */
  function TakeOffline(rows: map<string, Row>): map<string, Row> {
    map code | code in rows :: if rows[code].status == Online then rows[code].(status := Offline) else rows[code]
  }

  lemma CleanupComposes(rows: map<string, Row>, now: real)
    ensures TakeOffline(ExpireOverdue(rows, now)) == map code | code in rows :: RestartedRow(rows[code], now)
  {
    var a, b := TakeOffline(ExpireOverdue(rows, now)), map code | code in rows :: RestartedRow(rows[code], now);
    assert a.Keys == b.Keys;
    forall code | code in a ensures a[code] == b[code] {}
  }
}
