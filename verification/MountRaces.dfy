/**
 Runs of the interleaved relay: undisturbed, a handler and a sweep do exactly what the uninterrupted
 procedures do; disturbed, an expired mount can come back and a mount can be warned twice.
 */
module MountRaces {
  import opened Prelude
  import opened MountRegistry
  import opened MountLifecycle
  import opened MountInterleaving

  // ---------------------------------------------------------------------------
  // Nobody interferes: an admission
  // ---------------------------------------------------------------------------

  /** The next n registry calls of handler k. */
  function Calls(cfg: Config, w: World, k: nat, spare: string, n: nat): World
    requires k < |w.handlers|
    decreases n
  {
    if n == 0 then w else
      CallKeepsCount(cfg, w, k, spare);
      Calls(cfg, CallStep(cfg, w, k, spare), k, spare, n - 1)
  }

  lemma CallKeepsCount(cfg: Config, w: World, k: nat, spare: string)
    requires k < |w.handlers|
    ensures |CallStep(cfg, w, k, spare).handlers| == |w.handlers|
  {
  }

  /** Where the admission of request `a` has led: registry, phase and the reported lifetime. */
  ghost predicate AdmittedAs(w: World, k: nat, outcome: (Registry, Admission)) {
    && k < |w.handlers| && w.reg == outcome.0
    && match outcome.1
       case Admitted(code, expiresIn, _) =>
         w.handlers[k].phase == Serving(code) && code in w.history && w.history[code].reported == expiresIn
       case Refused => w.handlers[k].phase == Over
  }

  /** What an admission does when no reclaim succeeds. */
  function Anew(cfg: Config, reg: Registry, a: AgentRequest, spare: string, now: real): (Registry, Admission) {
    var code := if a.code.Some? && a.code.value !in reg.rows then a.code.value else spare;
    var ttl := EffectiveTtl(a.ttl, cfg.maxTtl);
    if code == "" then (reg, Refused)
    else (SetOwner(Register(reg, code, Some(a.conn), a.ip, now, Some(now + ttl as real)), code, a.owner),
        Admitted(code, ttl, false))
  }

  lemma RegisterThenServe(cfg: Config, w: World, k: nat, code: string, spare: string)
    requires k < |w.handlers|
    ensures var a := w.handlers[k].request;
            var ttl := EffectiveTtl(a.ttl, cfg.maxTtl);
            var w' := CallStep(cfg, RegisterCall(cfg, w, k, code), k, spare);
            AdmittedAs(w', k,
              if code == "" then (w.reg, Refused)
              else (SetOwner(Register(w.reg, code, Some(a.conn), a.ip, w.clock, Some(w.clock + ttl as real)), code,
                  a.owner), Admitted(code, ttl, false)))
  {
  }

  lemma CallsOne(cfg: Config, w: World, k: nat, spare: string, n: nat)
    requires k < |w.handlers| && n > 0
    ensures |CallStep(cfg, w, k, spare).handlers| == |w.handlers|
    ensures Calls(cfg, w, k, spare, n) == Calls(cfg, CallStep(cfg, w, k, spare), k, spare, n - 1)
  {
    CallKeepsCount(cfg, w, k, spare);
  }

  lemma AnswerStep(cfg: Config, w: World, k: nat, spare: string)
    requires k < |w.handlers| && w.handlers[k].phase == AskMount && w.handlers[k].request.code.Some?
    requires SpareIsFresh(cfg, w, spare)
    ensures var code := if w.handlers[k].request.code.value !in w.reg.rows
            then w.handlers[k].request.code.value else spare;
            var w1 := CallStep(cfg, w, k, spare);
            && k < |w1.handlers| && w1.reg == w.reg && w1.clock == w.clock
                 && w1.handlers[k].request == w.handlers[k].request
            && CallStep(cfg, w1, k, spare) == RegisterCall(cfg, w1, k, code)
  {
  }

  /** From has_mount on, two more calls. */
  lemma AskThenServe(cfg: Config, w: World, k: nat, spare: string)
    requires k < |w.handlers| && w.handlers[k].phase == AskMount && w.handlers[k].request.code.Some?
    requires SpareIsFresh(cfg, w, spare)
    ensures AdmittedAs(Calls(cfg, w, k, spare, 3), k, Anew(cfg, w.reg, w.handlers[k].request, spare, w.clock))
  {
    var a := w.handlers[k].request;
    var code := if a.code.value !in w.reg.rows then a.code.value else spare;
    var w1 := CallStep(cfg, w, k, spare);
    AnswerStep(cfg, w, k, spare);
    RegisterThenServe(cfg, w1, k, code, spare);
    var w2 := CallStep(cfg, w1, k, spare);
    CallsOne(cfg, w, k, spare, 3);
    CallsOne(cfg, w1, k, spare, 2);
    CallsOne(cfg, w2, k, spare, 1);
    assert Calls(cfg, CallStep(cfg, w2, k, spare), k, spare, 0) == CallStep(cfg, w2, k, spare);
  }

  /** A handler that serves or is over makes no more calls. */
  lemma {:induction false} NoMoreCalls(cfg: Config, w: World, k: nat, spare: string, n: nat)
    requires k < |w.handlers| && (w.handlers[k].phase.Serving? || w.handlers[k].phase.Over?)
    ensures Calls(cfg, w, k, spare, n) == w
    decreases n
  {
    if n > 0 { NoMoreCalls(cfg, w, k, spare, n - 1); }
  }

  /** What an admission does when a reclaim succeeds. */
  function Again(reg: Registry, a: AgentRequest, code: string, now: real): (Registry, Admission)
    requires Reclaimable(reg, code, now)
  {
    var (reg', left) := Reclaim(reg, code, a.conn, now, true);
    (SetOwner(reg', code, a.owner), Admitted(code, left.value, true))
  }

  lemma ReclaimThenServe(cfg: Config, w: World, k: nat, code: string, next: Phase, spare: string)
    requires k < |w.handlers| && Reclaimable(w.reg, code, w.clock)
    ensures AdmittedAs(CallStep(cfg, ReclaimCall(w, k, code, true, next), k, spare), k,
            Again(w.reg, w.handlers[k].request, code, w.clock))
  {
  }

  lemma AddressThenServe(cfg: Config, w: World, k: nat, spare: string)
    requires k < |w.handlers| && w.handlers[k].phase == TryAddress && w.handlers[k].request.code.Some?
    requires SpareIsFresh(cfg, w, spare)
    ensures var a := w.handlers[k].request;
            var code := a.code.value;
            AdmittedAs(Calls(cfg, w, k, spare, 4), k,
              if Reclaimable(w.reg, code, w.clock) && SameIp(w.reg, code, a.ip) then Again(w.reg, a, code, w.clock)
              else Anew(cfg, w.reg, a, spare, w.clock))
  {
    var a := w.handlers[k].request;
    var code := a.code.value;
    var w1 := CallStep(cfg, w, k, spare);
    if Reclaimable(w.reg, code, w.clock) && SameIp(w.reg, code, a.ip) {
      ReclaimThenServe(cfg, w, k, code, AskMount, spare);
      NoMoreCalls(cfg, CallStep(cfg, w1, k, spare), k, spare, 2);
    } else {
      assert w1 == Go(w, k, AskMount);
      AskThenServe(cfg, w1, k, spare);
    }
    assert Calls(cfg, w, k, spare, 4) == Calls(cfg, w1, k, spare, 3);
  }

  lemma OwnerThenServe(cfg: Config, w: World, k: nat, spare: string)
    requires k < |w.handlers| && w.handlers[k].phase == TryOwner && SpareIsFresh(cfg, w, spare)
    requires w.handlers[k].request.code.Some? && w.handlers[k].request.owner.Some?
    ensures var a := w.handlers[k].request;
            var code := a.code.value;
            AdmittedAs(Calls(cfg, w, k, spare, 5), k,
              if Reclaimable(w.reg, code, w.clock)
                  && (SameOwner(w.reg, code, a.owner.value) || SameIp(w.reg, code, a.ip))
              then Again(w.reg, a, code, w.clock) else Anew(cfg, w.reg, a, spare, w.clock))
  {
    var a := w.handlers[k].request;
    var code := a.code.value;
    var w1 := CallStep(cfg, w, k, spare);
    if Reclaimable(w.reg, code, w.clock) && SameOwner(w.reg, code, a.owner.value) {
      ReclaimThenServe(cfg, w, k, code, TryAddress, spare);
      NoMoreCalls(cfg, CallStep(cfg, w1, k, spare), k, spare, 3);
      assert Calls(cfg, w1, k, spare, 4) == Calls(cfg, CallStep(cfg, w1, k, spare), k, spare, 3);
    } else {
      assert w1 == Go(w, k, TryAddress);
      AddressThenServe(cfg, w1, k, spare);
    }
    assert Calls(cfg, w, k, spare, 5) == Calls(cfg, w1, k, spare, 4);
  }

  lemma FreshThenServe(cfg: Config, w: World, k: nat, spare: string)
    requires k < |w.handlers| && w.handlers[k].phase == RegisterFresh && w.handlers[k].request.code.None?
    requires SpareIsFresh(cfg, w, spare)
    ensures AdmittedAs(Calls(cfg, w, k, spare, 5), k, Anew(cfg, w.reg, w.handlers[k].request, spare, w.clock))
  {
    var w1 := CallStep(cfg, w, k, spare);
    var w2 := CallStep(cfg, w1, k, spare);
    assert w1 == RegisterCall(cfg, w, k, spare);
    RegisterThenServe(cfg, w, k, spare, spare);
    NoMoreCalls(cfg, w2, k, spare, 3);
    assert Calls(cfg, w, k, spare, 5) == Calls(cfg, w1, k, spare, 4) == Calls(cfg, w2, k, spare, 3);
  }

  lemma AdmitIs(cfg: Config, reg: Registry, a: AgentRequest, spare: string, now: real)
    requires a.code != Some(cfg.dropboxCode)
    ensures Admit(cfg, reg, a, spare, now) ==
            if a.code.Some? && Reclaimable(reg, a.code.value, now)
               && ((a.owner.Some? && SameOwner(reg, a.code.value, a.owner.value)) || SameIp(reg, a.code.value, a.ip))
            then Again(reg, a, a.code.value, now) else Anew(cfg, reg, a, spare, now)
  {
  }

  /** Left alone, a handler's calls add up to the uninterrupted admission. */
  lemma AdmissionAlone(cfg: Config, w: World, k: nat, spare: string)
    requires k < |w.handlers| && w.handlers[k].phase == FirstPhase(w.handlers[k].request)
    requires w.handlers[k].request.code != Some(cfg.dropboxCode) && SpareIsFresh(cfg, w, spare)
    ensures AdmittedAs(Calls(cfg, w, k, spare, 5), k, Admit(cfg, w.reg, w.handlers[k].request, spare, w.clock))
  {
    var a := w.handlers[k].request;
    AdmitIs(cfg, w.reg, a, spare, w.clock);
    if a.code.None? {
      FreshThenServe(cfg, w, k, spare);
    } else if a.owner.Some? {
      OwnerThenServe(cfg, w, k, spare);
    } else {
      AddressThenServe(cfg, w, k, spare);
      OneMoreCall(cfg, w, k, spare, 4);
    }
  }

  /** Calls beyond the end of an admission change nothing. */
  lemma {:induction false} OneMoreCall(cfg: Config, w: World, k: nat, spare: string, n: nat)
    requires k < |w.handlers|
    requires var w' := Calls(cfg, w, k, spare, n);
             k < |w'.handlers| && (w'.handlers[k].phase.Serving? || w'.handlers[k].phase.Over?)
    ensures Calls(cfg, w, k, spare, n + 1) == Calls(cfg, w, k, spare, n)
    decreases n
  {
    if n == 0 {
      NoMoreCalls(cfg, w, k, spare, 1);
    } else {
      CallKeepsCount(cfg, w, k, spare);
      OneMoreCall(cfg, CallStep(cfg, w, k, spare), k, spare, n - 1);
    }
  }

  // ---------------------------------------------------------------------------
  // Nobody interferes: a sweep
  // ---------------------------------------------------------------------------

  /** Whether the sweep's next call succeeds, given what raises. */
  function NextOk(w: World, io: Faults): bool {
    match w.sweeper
    case Sweeping(at, left) =>
      left != [] && (if Overdue(left[0].row, at) then left[0].of.code !in io.failed else left[0].of.code !in io.unsent)
    case Marking(_, item, _, _) => item.of.code !in io.failed
    case _ => true
  }

  function StepsLeft(s: Sweeper): nat {
    match s
    case Sweeping(_, left) => 2 * |left| + 1
    case Closing(_, _, left) => 2 * |left| + 2
    case Marking(_, _, _, left) => 2 * |left| + 2
    case _ => 0
  }

  lemma SweepGetsOn(cfg: Config, w: World, io: Faults)
    requires StepsLeft(w.sweeper) > 0
    ensures StepsLeft(SweepStep(cfg, w, [], NextOk(w, io)).sweeper) < StepsLeft(w.sweeper)
  {
  }

  /** The rest of a sweep, with no step of anyone else in between. */
  function SweepOut(cfg: Config, w: World, io: Faults): World
    decreases StepsLeft(w.sweeper)
  {
    if StepsLeft(w.sweeper) == 0 then w
    else
      SweepGetsOn(cfg, w, io);
      SweepOut(cfg, SweepStep(cfg, w, [], NextOk(w, io)), io)
  }

  /** The records left show the mounts of `s` that are not done, and every active mount is one or the other. */
  ghost predicate Shows(s: Registry, left: seq<Item>, done: set<string>) {
    && (forall i :: 0 <= i < |left| ==>
          var code := left[i].of.code;
          && code in s.rows && code !in done && left[i].row == s.rows[code]
          && left[i].conn == if code in s.connections then Some(s.connections[code]) else None)
    && (forall i, j :: 0 <= i < j < |left| ==> left[i].of.code != left[j].of.code)
    && (forall code :: code in s.rows && s.rows[code].status != Expired ==>
          code in done || exists i :: 0 <= i < |left| && left[i].of.code == code)
  }

  lemma ShowsRest(s: Registry, left: seq<Item>, done: set<string>)
    requires Shows(s, left, done) && left != []
    ensures Shows(s, left[1..], done + {left[0].of.code})
  {
    var rest := left[1..];
    forall code | code in s.rows && s.rows[code].status != Expired && code !in done + {left[0].of.code}
      ensures exists i :: 0 <= i < |rest| && rest[i].of.code == code
    {
      var i :| 0 <= i < |left| && left[i].of.code == code;
      assert rest[i - 1].of.code == code;
    }
  }

  /** One record takes one or two steps and has the effect of the uninterrupted sweep. */
  function VisitOut(cfg: Config, w: World, io: Faults): World
    requires w.sweeper.Sweeping? && w.sweeper.left != []
  {
    var w1 := SweepStep(cfg, w, [], NextOk(w, io));
    if w1.sweeper.Sweeping? then w1 else SweepStep(cfg, w1, [], NextOk(w1, io))
  }

  lemma VisitOverdue(cfg: Config, w: World, io: Faults, at: real, item: Item, rest: seq<Item>)
    requires w.sweeper == Sweeping(at, [item] + rest) && Overdue(item.row, at) && item.of.code in w.reg.rows
    ensures var w' := VisitOut(cfg, w, io); var code := item.of.code;
            && w'.sweeper == Sweeping(at, rest)
            && w'.reg == if code in io.failed then w.reg
                         else Expire(w.reg, code).(closed := w.reg.closed + if item.conn.Some?
                             then {item.conn.value} else {})
  {
    assert ([item] + rest)[1..] == rest && ([item] + rest)[0] == item;
  }

  lemma VisitOther(cfg: Config, w: World, io: Faults, at: real, item: Item, rest: seq<Item>)
    requires w.sweeper == Sweeping(at, [item] + rest) && !Overdue(item.row, at) && item.of.code in w.reg.rows
    ensures var w' := VisitOut(cfg, w, io); var code := item.of.code;
            && w'.sweeper == Sweeping(at, rest)
            && w'.reg == if NearExpiry(item.row, at, cfg.warningWindow) && (item.conn.None? || code !in io.unsent)
                 && code !in io.failed
                         then MarkTtlWarned(w.reg, code) else w.reg
  {
    assert ([item] + rest)[1..] == rest && ([item] + rest)[0] == item;
  }

  lemma VisitOutIs(cfg: Config, w: World, io: Faults, s: Registry, done: set<string>, at: real, left: seq<Item>)
    requires w.sweeper == Sweeping(at, left) && left != [] && Shows(s, left, done)
    requires w.reg == SweptPart(s, done, at, cfg.warningWindow, io)
    ensures var w' := VisitOut(cfg, w, io); var code := left[0].of.code; var window := cfg.warningWindow;
            && w'.sweeper == Sweeping(at, left[1..])
            && w'.reg.rows == w.reg.rows[code := SweptRow(s, code, at, window, io)]
            && w'.reg.connections == (if Dropped(s, code, at, io)
                 then w.reg.connections - {code} else w.reg.connections)
            && w'.reg.closed == w.reg.closed + (if Dropped(s, code, at, io) && code in s.connections
                 then {s.connections[code]} else {})
  {
    var item, rest := left[0], left[1..];
    var code := item.of.code;
    assert left == [item] + rest;
    assert code in w.reg.rows && w.reg.rows[code] == item.row;
    if Overdue(item.row, at) {
      VisitOverdue(cfg, w, io, at, item, rest);
    } else {
      VisitOther(cfg, w, io, at, item, rest);
    }
  }

  lemma SweepOutVisits(cfg: Config, w: World, io: Faults)
    requires w.sweeper.Sweeping? && w.sweeper.left != []
    ensures SweepOut(cfg, w, io) == SweepOut(cfg, VisitOut(cfg, w, io), io)
  {
    var w1 := SweepStep(cfg, w, [], NextOk(w, io));
    SweepGetsOn(cfg, w, io);
    assert SweepOut(cfg, w, io) == SweepOut(cfg, w1, io);
    if !w1.sweeper.Sweeping? {
      SweepGetsOn(cfg, w1, io);
    }
  }

  lemma {:induction false} SweepOutIsSweep(cfg: Config, w: World, io: Faults, s: Registry, done: set<string>, at: real,
                                           left: seq<Item>)
    requires w.sweeper == Sweeping(at, left) && Shows(s, left, done)
    requires w.reg == SweptPart(s, done, at, cfg.warningWindow, io)
    ensures SweepOut(cfg, w, io).reg == Sweep(s, at, cfg.warningWindow, io) && SweepOut(cfg, w, io).sweeper == Asleep
    decreases |left|
  {
    var window := cfg.warningWindow;
    if left == [] {
      InactiveUntouched(s, done, at, window, io);
      var w1 := SweepStep(cfg, w, [], NextOk(w, io));
      assert SweepOut(cfg, w, io) == SweepOut(cfg, w1, io) == w1;
    } else {
      var w' := VisitOut(cfg, w, io);
      var code := left[0].of.code;
      VisitOutIs(cfg, w, io, s, done, at, left);
      SweptOneMore(s, done, code, at, window, io, w'.reg);
      ShowsRest(s, left, done);
      SweepOutVisits(cfg, w, io);
      SweepOutIsSweep(cfg, w', io, s, done + {code}, at, left[1..]);
    }
  }

  /** Left alone, the sweep's calls add up to the uninterrupted sweep, whatever raises and in any order. */
  lemma SweepAlone(cfg: Config, w: World, order: seq<string>, io: Faults)
    requires w.sweeper == Asleep && IsSnapshotOrder(w.reg, order)
    ensures var w' := SweepOut(cfg, Act(cfg, Act(cfg, w, WakeSweep), SweepCall(order, true)), io);
            w'.reg == Sweep(w.reg, w.clock, cfg.warningWindow, io) && w'.sweeper == Asleep
  {
    var w1 := Act(cfg, w, WakeSweep);
    var w2 := Act(cfg, w1, SweepCall(order, true));
    SweptNothing(w.reg, w.clock, cfg.warningWindow, io);
    SnapshotShows(w1, order);
    SweepOutIsSweep(cfg, w2, io, w.reg, {}, w.clock, w2.sweeper.left);
  }

  lemma SnapshotShows(w: World, order: seq<string>)
    requires IsSnapshotOrder(w.reg, order)
    ensures Snapshot(w, w.clock, order).sweeper.Sweeping? && Shows(w.reg, Snapshot(w, w.clock, order).sweeper.left, {})
  {
    var left := Snapshot(w, w.clock, order).sweeper.left;
    forall i | 0 <= i < |left| ensures left[i].of.code == order[i] && order[i] in order {
      assert left[i] == ItemOf(w, order[i]);
    }
    forall code | code in w.reg.rows && w.reg.rows[code].status != Expired
      ensures exists i :: 0 <= i < |left| && left[i].of.code == code
    {
      var i :| 0 <= i < |order| && order[i] == code;
      assert left[i].of.code == code;
    }
  }

  // ---------------------------------------------------------------------------
  // Witnesses
  // ---------------------------------------------------------------------------

  /** Settings under which the runs below work: a named local mount, and time for a warning. */
  predicate Roomy(cfg: Config) {
    cfg.dropboxCode != "" && cfg.maxTtl > 100 && cfg.warningWindow >= 100.0
  }

  predicate Usable(cfg: Config, code: string) {
    code != "" && code != cfg.dropboxCode
  }

  const LOCAL := Row(Online, "127.0.0.1", 0.0, None, false, None)

  /** The row of an agent that registered at time 0 for `ttl` seconds. */
  function AgentRow(ttl: int): Row {
    Row(Online, "10.0.0.1", 0.0, Some(ttl as real), false, None)
  }

  /** The table holds the local mount and the mount `code`. */
  ghost predicate TwoRows(cfg: Config, w: World, code: string, row: Row) {
    w.clock == 0.0 && w.reg.rows == map[cfg.dropboxCode := LOCAL][code := row]
  }

  function Asking(code: string, conn: ConnId, ttl: int): AgentRequest {
    AgentRequest(Some(code), conn, "10.0.0.1", None, Some(ttl))
  }

  lemma Boots(cfg: Config) returns (w: World)
    requires Roomy(cfg)
    ensures Reachable(cfg, w)
    ensures w == World(Registry(map[cfg.dropboxCode := LOCAL], map[], {}), 0.0, [], Asleep, map[], map[], NO_LOG)
  {
    w := Boot(cfg, 0.0);
    BootIsReachable(cfg, 0.0);
    assert Restart(EMPTY, 0.0).rows == map[];
  }

  lemma Joins(cfg: Config, w: World, a: AgentRequest) returns (w': World)
    requires Reachable(cfg, w) && a.code.Some? && a.code.value != cfg.dropboxCode && a.owner.None?
    requires ConnIsFresh(w, a.conn)
    ensures Reachable(cfg, w') && w' == w.(handlers := w.handlers + [Handler(a, TryAddress, 0)])
  {
    ReachNext(cfg, w, Begin(a));
    w' := Act(cfg, w, Begin(a));
  }

  /** An agent asks for a code without a row, up to the answer of has_mount. */
  lemma FindsNone(cfg: Config, w: World, k: nat, code: string) returns (w': World)
    requires Reachable(cfg, w) && k < |w.handlers| && w.handlers[k].phase == TryAddress
    requires w.handlers[k].request.code == Some(code) && code !in w.reg.rows
    ensures Reachable(cfg, w') && w' == Go(w, k, RegisterPreferred(Epoch(w, code)))
  {
    ReachNext(cfg, w, Call(k, ""));
    var w1 := Act(cfg, w, Call(k, ""));
    assert w1 == Go(w, k, AskMount);
    ReachNext(cfg, w1, Call(k, ""));
    w' := Act(cfg, w1, Call(k, ""));
    assert Go(w1, k, RegisterPreferred(Epoch(w, code))) == Go(w, k, RegisterPreferred(Epoch(w, code)));
  }

  lemma Registers(cfg: Config, w: World, k: nat, code: string) returns (w': World)
    requires Reachable(cfg, w) && k < |w.handlers| && w.handlers[k].phase.RegisterPreferred?
    requires w.handlers[k].request.code == Some(code)
    ensures Reachable(cfg, w') && w' == RegisterCall(cfg, w, k, code) && w' == Act(cfg, w, Call(k, ""))
  {
    ReachNext(cfg, w, Call(k, ""));
    w' := Act(cfg, w, Call(k, ""));
  }

  /** A sweep starts and takes its snapshot, the mount `code` first. */
  lemma Looks(cfg: Config, w: World, code: string, row: Row) returns (w': World)
    requires Reachable(cfg, w) && w.sweeper == Asleep && TwoRows(cfg, w, code, row) && row.status == Online
    requires Usable(cfg, code)
    ensures Reachable(cfg, w')
    ensures w' == w.(sweeper := Sweeping(0.0, [ItemOf(w, code), ItemOf(w, cfg.dropboxCode)]), log := w'.log)
  {
    ReachNext(cfg, w, WakeSweep);
    var w1 := Act(cfg, w, WakeSweep);
    var order := [code, cfg.dropboxCode];
    ReachNext(cfg, w1, SweepCall(order, true));
    w' := Act(cfg, w1, SweepCall(order, true));
    assert ItemOf(w1, code) == ItemOf(w, code) && ItemOf(w1, cfg.dropboxCode) == ItemOf(w, cfg.dropboxCode);
    assert w'.sweeper.left == [ItemOf(w, code), ItemOf(w, cfg.dropboxCode)];
  }

  /** The sweep comes to its first record. */
  lemma Visits(cfg: Config, w: World, item: Item, rest: seq<Item>) returns (w': World)
    requires Reachable(cfg, w) && w.sweeper == Sweeping(0.0, [item] + rest)
    ensures Reachable(cfg, w') && w' == VisitItem(cfg, w, 0.0, item, rest, true)
  {
    ReachNext(cfg, w, SweepCall([], true));
    w' := Act(cfg, w, SweepCall([], true));
    assert ([item] + rest)[1..] == rest;
  }

  /** An agent registers `code` on an otherwise empty relay, and a sweep looks at it. */
  lemma RegisteredAndSeen(cfg: Config, code: string, w: World, ttl: int) returns (w': World)
    requires Roomy(cfg) && Usable(cfg, code) && 0 <= ttl <= 100 && Reachable(cfg, w)
    requires w.reg == Registry(map[cfg.dropboxCode := LOCAL], map[], {}) && w.clock == 0.0 && w.sweeper == Asleep
    requires w.history == map[] && w.ledger == map[] && w.handlers != []
    requires w.handlers[0] == Handler(Asking(code, 1, ttl), RegisterPreferred(0), 0)
    ensures Reachable(cfg, w') && TwoRows(cfg, w', code, AgentRow(ttl)) && Epoch(w', code) == 1 && w'.ledger == map[]
    ensures w'.handlers == w.handlers[0 := Handler(Asking(code, 1, ttl), StoreOwner(code), 1)]
    ensures w'.history == map[code := History(1, Some(1), ttl, 1)]
    ensures w'.sweeper.Sweeping? && w'.sweeper.at == 0.0 && |w'.sweeper.left| == 2
    ensures w'.sweeper.left[0] == Item(AgentRow(ttl), Some(1), Registration(code, 1))
  {
    var w1 := Registers(cfg, w, 0, code);
    assert EffectiveTtl(Some(ttl), cfg.maxTtl) == ttl;
    assert TwoRows(cfg, w1, code, AgentRow(ttl));
    w' := Looks(cfg, w1, code, AgentRow(ttl));
  }

  /**
   Two agents ask for a code that has no row; one registers it with a lifetime that is over at once, a sweep
   expires it, and the other's register call brings it back.
   */
  lemma AdmissionRaceRevives(cfg: Config, code: string)
    requires Roomy(cfg) && Usable(cfg, code)
    ensures exists w: World ::
              && Reachable(cfg, w) && code in w.reg.rows && w.reg.rows[code].status == Expired
              && AnsweredBefore(w, Call(1, ""), code)
              && var w' := Act(cfg, w, Call(1, "")); code in w'.reg.rows && w'.reg.rows[code].status == Online
  {
    var w4 := TwoFindNone(cfg, code, 0);
    var w5 := RegisteredAndSeen(cfg, code, w4, 0);
    var item, rest := w5.sweeper.left[0], w5.sweeper.left[1..];
    assert w5.sweeper.left == [item] + rest;
    var w6 := Visits(cfg, w5, item, rest);
    assert w6.reg.rows[code].status == Expired;
    assert AnsweredBefore(w6, Call(1, ""), code);
    var w7 := Registers(cfg, w6, 1, code);
  }

  /** A restart between a send and its mark: the books count the warning as sent and lost. */
  lemma SentThenRestarted(cfg: Config, code: string) returns (w: World)
    requires Roomy(cfg) && Usable(cfg, code)
    ensures Reachable(cfg, w) && TwoRows(cfg, w, code, AgentRow(100).(status := Offline)) && Epoch(w, code) == 1
    ensures Book(w, Registration(code, 1)) == Ledger(1, 0, 1) && w.handlers == [] && w.sweeper == Asleep
    ensures w.history == map[code := History(1, Some(1), 100, 1)]
  {
    var w0 := Boots(cfg);
    var w1 := Joins(cfg, w0, Asking(code, 1, 100));
    var w2 := FindsNone(cfg, w1, 0, code);
    var w3 := RegisteredAndSeen(cfg, code, w2, 100);
    var item, rest := w3.sweeper.left[0], w3.sweeper.left[1..];
    assert w3.sweeper.left == [item] + rest;
    var w4 := Visits(cfg, w3, item, rest);
    assert w4.sweeper == Marking(0.0, item, true, rest) && Book(w4, item.of) == Ledger(1, 0, 0);
    w := Reboots(cfg, w4, code, AgentRow(100));
  }

  lemma Reboots(cfg: Config, w: World, code: string, row: Row) returns (w': World)
    requires Reachable(cfg, w) && TwoRows(cfg, w, code, row) && Usable(cfg, code) && cfg.dropboxCode != ""
    requires row.status == Online && row.expiresAt.Some? && row.expiresAt.value >= 0.0
    ensures Reachable(cfg, w') && TwoRows(cfg, w', code, row.(status := Offline)) && w'.handlers == []
    ensures w'.sweeper == Asleep
    ensures w'.history == w.history && w'.ledger == Settle(w, false)
  {
    ReachNext(cfg, w, Reboot);
    w' := Act(cfg, w, Reboot);
    RebootsTo(cfg, w.reg, code, row);
  }

  lemma RebootsTo(cfg: Config, reg: Registry, code: string, row: Row)
    requires reg.rows == map[cfg.dropboxCode := LOCAL][code := row] && Usable(cfg, code) && cfg.dropboxCode != ""
    requires row.status == Online && row.expiresAt.Some? && row.expiresAt.value >= 0.0
    ensures Register(Restart(reg, 0.0), cfg.dropboxCode, None, "127.0.0.1", 0.0, None).rows ==
            map[cfg.dropboxCode := LOCAL][code := row.(status := Offline)]
  {
    var kept := DeleteExpiredBefore(reg, 0.0 - RETENTION_SECONDS).rows;
    assert kept == reg.rows;
  }

  /** After the reclaim the same registration is warned a second time. */
  lemma RestartWarnsTwice(cfg: Config, code: string)
    requires Roomy(cfg) && Usable(cfg, code)
    ensures exists w: World :: Reachable(cfg, w) && Epoch(w, code) == 1 && Book(w, Registration(code, 1)).sent == 2
  {
    var w0 := SentThenRestarted(cfg, code);
    var w1 := Joins(cfg, w0, Asking(code, 2, 100));
    ReachNext(cfg, w1, Call(0, ""));
    var w2 := Act(cfg, w1, Call(0, ""));
    assert w2 == ReclaimCall(w1, 0, code, true, AskMount);
    assert TwoRows(cfg, w2, code, AgentRow(100));
    var w3 := Looks(cfg, w2, code, AgentRow(100));
    var item, rest := w3.sweeper.left[0], w3.sweeper.left[1..];
    assert w3.sweeper.left == [item] + rest;
    var w4 := Visits(cfg, w3, item, rest);
    assert Book(w4, Registration(code, 1)).sent == 2;
  }

  /** Two agents ask for a code that has no row; both are told so. */
  lemma TwoFindNone(cfg: Config, code: string, ttl: int) returns (w: World)
    requires Roomy(cfg) && Usable(cfg, code)
    ensures Reachable(cfg, w) && w.clock == 0.0 && w.sweeper == Asleep && w.history == map[] && w.ledger == map[]
    ensures w.reg == Registry(map[cfg.dropboxCode := LOCAL], map[], {})
    ensures w.handlers == [Handler(Asking(code, 1, ttl), RegisterPreferred(0), 0),
            Handler(Asking(code, 2, 60), RegisterPreferred(0), 0)]
  {
    var w0 := Boots(cfg);
    var w1 := Joins(cfg, w0, Asking(code, 1, ttl));
    var w2 := Joins(cfg, w1, Asking(code, 2, 60));
    var w3 := FindsNone(cfg, w2, 0, code);
    w := FindsNone(cfg, w3, 1, code);
  }

  /**
   The first registers for no time at all and the sweep takes its snapshot; the second registers for a minute,
   and the expire call hits that registration, a minute early.
   */
  lemma StaleSnapshotExpiresEarly(cfg: Config, code: string)
    requires Roomy(cfg) && Usable(cfg, code)
    ensures exists w: World ::
              && Reachable(cfg, w) && ExpiredEarly(w, Act(cfg, w, SweepCall([], true)), code)
              && w.clock == 0.0 && w.reg.rows[code].expiresAt == Some(60.0)
  {
    var w0 := TwoFindNone(cfg, code, 0);
    var w1 := RegisteredAndSeen(cfg, code, w0, 0);
    var w2 := Registers(cfg, w1, 1, code);
    assert EffectiveTtl(Some(60), cfg.maxTtl) == 60;
    assert w2.reg.rows[code] == AgentRow(60);
    var item, rest := w2.sweeper.left[0], w2.sweeper.left[1..];
    assert w2.sweeper.left == [item] + rest;
    ExpiresHit(cfg, w2, item, rest, code);
  }

  lemma ExpiresHit(cfg: Config, w: World, item: Item, rest: seq<Item>, code: string)
    requires w.sweeper == Sweeping(0.0, [item] + rest) && item.of.code == code && Overdue(item.row, 0.0)
    requires w.clock == 0.0
    requires code in w.reg.rows && w.reg.rows[code] == AgentRow(60)
    ensures ExpiredEarly(w, Act(cfg, w, SweepCall([], true)), code)
  {
    assert ([item] + rest)[0] == item && ([item] + rest)[1..] == rest;
    assert Act(cfg, w, SweepCall([], true)) == ExpireItem(w, 0.0, item, rest, true);
  }

  /** A sweep starts on a relay that only has its local mount. */
  lemma LooksAtLocal(cfg: Config, w: World) returns (w': World)
    requires Reachable(cfg, w) && w.sweeper == Asleep && w.clock == 0.0 && w.reg.rows == map[cfg.dropboxCode := LOCAL]
    ensures Reachable(cfg, w') && w' == w.(sweeper := Sweeping(0.0, [ItemOf(w, cfg.dropboxCode)]), log := w'.log)
  {
    ReachNext(cfg, w, WakeSweep);
    var w1 := Act(cfg, w, WakeSweep);
    var order := [cfg.dropboxCode];
    ReachNext(cfg, w1, SweepCall(order, true));
    w' := Act(cfg, w1, SweepCall(order, true));
    assert ItemOf(w1, cfg.dropboxCode) == ItemOf(w, cfg.dropboxCode);
    assert w'.sweeper.left == [ItemOf(w, cfg.dropboxCode)];
  }

  /** A mount registered for no time at all after the snapshot is ONLINE and overdue when the sweep is over. */
  lemma LateRegistrationStaysOverdue(cfg: Config, code: string)
    requires Roomy(cfg) && Usable(cfg, code)
    ensures exists w: World ::
              && Reachable(cfg, w) && w.sweeper == Sweeping(0.0, [])
              && var w' := Act(cfg, w, SweepCall([], true));
                 w'.sweeper == Asleep && code in w'.reg.rows && Overdue(w'.reg.rows[code], 0.0)
  {
    var w0 := TwoFindNone(cfg, code, 0);
    var w1 := LooksAtLocal(cfg, w0);
    var w2 := Registers(cfg, w1, 0, code);
    assert EffectiveTtl(Some(0), cfg.maxTtl) == 0;
    var item := ItemOf(w0, cfg.dropboxCode);
    assert w2.sweeper.left == [item] + [];
    var w3 := Visits(cfg, w2, item, []);
    assert w3.sweeper == Sweeping(0.0, []) && w3.reg == w2.reg;
    assert w3.reg.rows[code] == AgentRow(0);
  }

  /** The first of two racing handlers hangs up and takes down the mount that the second has registered since. */
  lemma LeavingTakesDownTheOther(cfg: Config, code: string)
    requires Roomy(cfg) && Usable(cfg, code)
    ensures exists w: World ::
              && Reachable(cfg, w) && |w.handlers| == 2 && w.handlers[0].phase == Leaving(code) && code in w.reg.rows
              && w.reg.rows[code].status == Online && LookUp(w.reg, code) == Success(2)
                   && w.handlers[0].request.conn == 1
              && var w' := Act(cfg, w, Call(0, "")); code in w'.reg.rows && w'.reg.rows[code].status == Offline
  {
    var w0 := TwoFindNone(cfg, code, 60);
    var w1 := Registers(cfg, w0, 0, code);
    var w2 := Registers(cfg, w1, 1, code);
    var w3 := HangsUp(cfg, w2, 0, code);
    assert LookUp(w3.reg, code) == Success(2);
    TakesDown(cfg, w3, 0, code);
  }

  /** A handler stores the owner, serves, and hangs up. */
  lemma HangsUp(cfg: Config, w: World, k: nat, code: string) returns (w': World)
    requires Reachable(cfg, w) && k < |w.handlers| && w.handlers[k].phase == StoreOwner(code)
    ensures Reachable(cfg, w') && w'.handlers == Go(w, k, Leaving(code)).handlers
    ensures w'.reg == CloseConn(SetOwner(w.reg, code, w.handlers[k].request.owner), w.handlers[k].request.conn)
  {
    ReachNext(cfg, w, Call(k, ""));
    var w1 := Act(cfg, w, Call(k, ""));
    assert w1 == Go(w, k, Serving(code)).(reg := SetOwner(w.reg, code, w.handlers[k].request.owner));
    ReachNext(cfg, w1, HangUp(k));
    w' := Act(cfg, w1, HangUp(k));
    assert w' == Go(w1, k, Leaving(code)).(reg := CloseConn(w1.reg, w.handlers[k].request.conn));
  }

  lemma TakesDown(cfg: Config, w: World, k: nat, code: string)
    requires k < |w.handlers| && w.handlers[k].phase == Leaving(code) && code in w.reg.rows
    requires w.reg.rows[code].status == Online
    ensures var w' := Act(cfg, w, Call(k, "")); code in w'.reg.rows && w'.reg.rows[code].status == Offline
  {
  }
}
