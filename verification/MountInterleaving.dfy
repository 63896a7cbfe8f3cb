/**
 The relay's mounts over time, with every registry call a step of its own: any number of agent handlers,
 the sweep, tear-downs and restarts interleave at every await. `MountLifecycle` has the same procedures
 uninterrupted.
 */
module MountInterleaving {
  import opened Prelude
  import opened MountRegistry
  import opened MountLifecycle

  // ---------------------------------------------------------------------------
  // State
  // ---------------------------------------------------------------------------

  /** The next registry call of an agent's handler. */
  datatype Phase =
    | TryOwner
    | TryAddress
    | AskMount
    | RegisterPreferred(seen: nat)   // has_mount said no when the code had had `seen` registrations
    | RegisterFresh                  // the code is generated right before the call
    | StoreOwner(code: string)
    | Serving(code: string)          // in the receive loop
    | Leaving(code: string)          // the connection is closed, mark_offline is next
    | Over

  /** `ticket` numbers the store of this handler's connection among those for its code; 0 before it. */
  datatype Handler = Handler(request: AgentRequest, phase: Phase, ticket: nat)

  /** One registration of a code: the `epoch`-th. */
  datatype Registration = Registration(code: string, epoch: nat)

  /** One record of the sweep's snapshot, and the registration it shows. */
  datatype Item = Item(row: Row, conn: Option<ConnId>, of: Registration)

  /** The sweep between two awaits; `at` is the time it read when it started. */
  datatype Sweeper =
    | Asleep
    | Awake(at: real)
    | Sweeping(at: real, left: seq<Item>)
    | Closing(at: real, conn: ConnId, left: seq<Item>)
    | Marking(at: real, item: Item, sent: bool, left: seq<Item>)

  /**
   What happened to a code: registrations so far, the connection stored last, the lifetime reported last, and
   how often a registration or reclaim stored a connection.
   */
  datatype History = History(registrations: nat, stored: Option<ConnId>, reported: int, stores: nat)

  /** The warnings of one registration: sent, those followed by their mark, and those that were not. */
  datatype Ledger = Ledger(sent: nat, marked: nat, lost: nat)

  /**
   The present sweep: registrations of each code at the snapshot, the registrations whose expire call raised,
   and those that an expire call hit.
   */
  datatype SweepLog = SweepLog(epochs: map<string, nat>, raised: set<Registration>, hit: set<Registration>)

  const NO_LOG := SweepLog(map[], {}, {})

  datatype World = World(
    reg: Registry,
    clock: real,
    handlers: seq<Handler>,
    sweeper: Sweeper,
    history: map<string, History>,
    ledger: map<Registration, Ledger>,
    log: SweepLog)

  datatype Action =
    | Begin(request: AgentRequest)                // an agent passes the reserved-code test and the handshake
    | Call(handler: nat, spare: string)           // a handler's next registry call
    | HangUp(handler: nat)                        // its receive loop ends and it closes its connection
    | Abort(handler: nat)                         // it dies of an exception, or its task is cancelled
    | TearDown(conn: ConnId)                      // the heartbeat gives a connection up
    | WakeSweep
    | SweepCall(order: seq<string>, ok: bool)     // the sweep's next await; `order` is that of a snapshot
    | CancelSweep
    | Reboot                                      // at any time; then clean-up and the local mount

  function Known(w: World, code: string): History {
    if code in w.history then w.history[code] else History(0, None, 0, 0)
  }

  function Epoch(w: World, code: string): nat {
    Known(w, code).registrations
  }

  function Book(w: World, e: Registration): Ledger {
    if e in w.ledger then w.ledger[e] else Ledger(0, 0, 0)
  }

  // ---------------------------------------------------------------------------
  // An agent's handler
  // ---------------------------------------------------------------------------

  function FirstPhase(a: AgentRequest): Phase {
    if a.code.None? then RegisterFresh else if a.owner.Some? then TryOwner else TryAddress
  }

  /** A connection is a new object. */
  predicate ConnIsFresh(w: World, conn: ConnId) {
    && (forall h | h in w.handlers :: h.request.conn != conn)
    && (forall code | code in w.history :: w.history[code].stored != Some(conn))
  }

  function Go(w: World, k: nat, phase: Phase): World
    requires k < |w.handlers|
  {
    w.(handlers := w.handlers[k := w.handlers[k].(phase := phase)])
  }

  /** Handler k has stored its connection for `code`, as part of the history `h`. */
  function Stored(w: World, k: nat, code: string, reg: Registry, h: History): World
    requires k < |w.handlers|
  {
    w.(reg := reg, history := w.history[code := h],
       handlers := w.handlers[k := w.handlers[k].(phase := StoreOwner(code), ticket := h.stores)])
  }

  /** A reclaim call; `next` is where the handler goes when it fails. */
  function ReclaimCall(w: World, k: nat, code: string, entitled: bool, next: Phase): World
    requires k < |w.handlers|
  {
    var conn := w.handlers[k].request.conn;
    var (reg', left) := Reclaim(w.reg, code, conn, w.clock, entitled);
    var h := Known(w, code);
    if left.None? then Go(w, k, next)
    else Stored(w, k, code, reg', h.(stored := Some(conn), reported := left.value, stores := h.stores + 1))
  }

  /** A register call for an agent; an empty code raises and ends the handler. */
  function RegisterCall(cfg: Config, w: World, k: nat, code: string): World
    requires k < |w.handlers|
  {
    var a := w.handlers[k].request;
    var ttl := EffectiveTtl(a.ttl, cfg.maxTtl);
    var h := Known(w, code);
    if code == "" then Go(w, k, Over)
    else
      Stored(w, k, code, Register(w.reg, code, Some(a.conn), a.ip, w.clock, Some(w.clock + ttl as real)),
             History(h.registrations + 1, Some(a.conn), ttl, h.stores + 1))
  }

  /** A generated code is fresh: not in the table, not reserved, not empty. */
  predicate SpareIsFresh(cfg: Config, w: World, spare: string) {
    spare !in w.reg.rows && spare != cfg.dropboxCode && spare != ""
  }

  function CallStep(cfg: Config, w: World, k: nat, spare: string): World
    requires k < |w.handlers|
  {
    var a := w.handlers[k].request;
    var code := if a.code.Some? then a.code.value else "";
    match w.handlers[k].phase
    case TryOwner => ReclaimCall(w, k, code, a.owner.Some? && SameOwner(w.reg, code, a.owner.value), TryAddress)
    case TryAddress => ReclaimCall(w, k, code, SameIp(w.reg, code, a.ip), AskMount)
    case AskMount => Go(w, k, if code in w.reg.rows then RegisterFresh else RegisterPreferred(Epoch(w, code)))
    case RegisterPreferred(_) => RegisterCall(cfg, w, k, code)
    case RegisterFresh => if SpareIsFresh(cfg, w, spare) then RegisterCall(cfg, w, k, spare) else w
    case StoreOwner(c) => Go(w, k, Serving(c)).(reg := SetOwner(w.reg, c, a.owner))
    case Leaving(c) => Go(w, k, Over).(reg := MarkOffline(w.reg, c))
    case _ => w
  }

  // ---------------------------------------------------------------------------
  // The sweep
  // ---------------------------------------------------------------------------

  /** The codes of the active mounts, each once, in the order of the query's rows. */
  predicate IsSnapshotOrder(reg: Registry, order: seq<string>) {
    && (forall code | code in order :: code in reg.rows && reg.rows[code].status != Expired)
    && (forall code | code in reg.rows :: reg.rows[code].status != Expired ==> code in order)
    && (forall i, j :: 0 <= i < j < |order| ==> order[i] != order[j])
  }

  function ItemOf(w: World, code: string): Item
    requires code in w.reg.rows
  {
    Item(w.reg.rows[code], if code in w.reg.connections then Some(w.reg.connections[code]) else None,
         Registration(code, Epoch(w, code)))
  }

  function Snapshot(w: World, at: real, order: seq<string>): World {
    if !IsSnapshotOrder(w.reg, order) then w
    else
      w.(sweeper := Sweeping(at, seq(|order|, i requires 0 <= i < |order| => assert order[i] in order;
          ItemOf(w, order[i]))),
         log := SweepLog(map code | code in w.history :: Epoch(w, code), {}, {}))
  }

  /** An overdue record: its mount is expired by code, unless the call raises or finds no row. */
  function ExpireItem(w: World, at: real, item: Item, rest: seq<Item>, ok: bool): World {
    var code := item.of.code;
    if !ok || code !in w.reg.rows
    then w.(sweeper := Sweeping(at, rest), log := w.log.(raised := w.log.raised + {item.of}))
    else
      w.(reg := Expire(w.reg, code),
         sweeper := if item.conn.Some? then Closing(at, item.conn.value, rest) else Sweeping(at, rest),
         log := w.log.(hit := w.log.hit + {Registration(code, Epoch(w, code))}))
  }

  /** The sweep comes to a record: expire it, warn its agent, or pass on. A call that raises is swallowed. */
  function VisitItem(cfg: Config, w: World, at: real, item: Item, rest: seq<Item>, ok: bool): World {
    var b := Book(w, item.of);
    if Overdue(item.row, at) then ExpireItem(w, at, item, rest, ok)
    else if NearExpiry(item.row, at, cfg.warningWindow) then
      if item.conn.None? then w.(sweeper := Marking(at, item, false, rest))
      else if !ok then w.(sweeper := Sweeping(at, rest))
      else w.(sweeper := Marking(at, item, true, rest), ledger := w.ledger[item.of := b.(sent := b.sent + 1)])
    else w.(sweeper := Sweeping(at, rest))
  }

  /** The books after a sent warning was (not) followed by its mark. */
  function Settle(w: World, followed: bool): map<Registration, Ledger> {
    if !w.sweeper.Marking? || !w.sweeper.sent then w.ledger
    else
      var e := w.sweeper.item.of;
      var b := Book(w, e);
      w.ledger[e := if followed then b.(marked := b.marked + 1) else b.(lost := b.lost + 1)]
  }

  /** mark_ttl_warned: it may raise, find no row, or hit the row of a later registration. */
  function MarkStep(w: World, ok: bool): World
    requires w.sweeper.Marking?
  {
    var e := w.sweeper.item.of;
    var lands := ok && e.code in w.reg.rows;
    w.(reg := if lands then MarkTtlWarned(w.reg, e.code) else w.reg,
       sweeper := Sweeping(w.sweeper.at, w.sweeper.left),
       ledger := Settle(w, lands && Epoch(w, e.code) == e.epoch))
  }

  function SweepStep(cfg: Config, w: World, order: seq<string>, ok: bool): World {
    match w.sweeper
    case Asleep => w
    case Awake(at) => Snapshot(w, at, order)
    case Sweeping(at, left) =>
      if left == [] then w.(reg := DeleteExpiredBefore(w.reg, at - RETENTION_SECONDS), sweeper := Asleep)
      else VisitItem(cfg, w, at, left[0], left[1..], ok)
    case Closing(at, conn, left) => w.(reg := CloseConn(w.reg, conn), sweeper := Sweeping(at, left))
    case Marking(_, _, _, _) => MarkStep(w, ok)
  }

  // ---------------------------------------------------------------------------
  // Steps and runs
  // ---------------------------------------------------------------------------

  function Act(cfg: Config, w: World, action: Action): World {
    match action
    case Begin(a) =>
      if a.code == Some(cfg.dropboxCode) || !ConnIsFresh(w, a.conn) then w
      else w.(handlers := w.handlers + [Handler(a, FirstPhase(a), 0)])
    case Call(k, spare) => if k < |w.handlers| then CallStep(cfg, w, k, spare) else w
    case HangUp(k) =>
      if k < |w.handlers| && w.handlers[k].phase.Serving?
      then Go(w, k, Leaving(w.handlers[k].phase.code)).(reg := CloseConn(w.reg, w.handlers[k].request.conn)) else w
    case Abort(k) => if k < |w.handlers| then Go(w, k, Over) else w
    case TearDown(conn) => w.(reg := CloseConn(w.reg, conn))
    case WakeSweep => if w.sweeper == Asleep then w.(sweeper := Awake(w.clock)) else w
    case SweepCall(order, ok) => SweepStep(cfg, w, order, ok)
    case CancelSweep => w.(sweeper := Asleep, ledger := Settle(w, false))
    case Reboot =>
      World(Register(Restart(w.reg, w.clock), cfg.dropboxCode, None, "127.0.0.1", w.clock, None), w.clock,
            [], Asleep, w.history, Settle(w, false), NO_LOG)
  }

  /** One step at time `now`; the clock never runs backwards. */
  function Step(cfg: Config, w: World, now: real, action: Action): World {
    if now < w.clock then w else Act(cfg, w.(clock := now), action)
  }

  function Run(cfg: Config, w: World, steps: seq<(real, Action)>): World
    decreases steps
  {
    if steps == [] then w else Run(cfg, Step(cfg, w, steps[0].0, steps[0].1), steps[1..])
  }

  function Boot(cfg: Config, now: real): World {
    Act(cfg, World(EMPTY, now, [], Asleep, map[], map[], NO_LOG), Reboot)
  }

  // ---------------------------------------------------------------------------
  // The invariant: connections, rows, handlers
  // ---------------------------------------------------------------------------

  /** Every entry of the connection map is what the latest registration or reclaim of its code stored. */
  ghost predicate LatestStored(cfg: Config, w: World) {
    forall code :: code in w.reg.connections ==>
      code != cfg.dropboxCode && code in w.history && w.history[code].stored == Some(w.reg.connections[code])
  }

  /** An agent's row: capped lifetime, and the lifetime reported last is not less than the time left. */
  ghost predicate RowSound(cfg: Config, row: Row, h: History, clock: real) {
    && row.expiresAt.Some? && row.expiresAt.value <= row.createdAt + cfg.maxTtl as real
    && (row.expiresAt.value - clock).Floor <= h.reported
  }

  ghost predicate RowsSound(cfg: Config, w: World) {
    forall code :: code in w.reg.rows && code != cfg.dropboxCode ==>
      code in w.history && RowSound(cfg, w.reg.rows[code], w.history[code], w.clock)
  }

  /**
   A handler never works for the reserved code; if its preferred code has a row now, the row is newer than its
   answer.
   */
  ghost predicate HandlerSound(cfg: Config, w: World, h: Handler) {
    && h.request.code != Some(cfg.dropboxCode)
    && (h.phase.TryOwner? || h.phase.TryAddress? || h.phase.AskMount? ==> h.request.code.Some?)
    && (h.phase.RegisterPreferred? ==>
          && h.request.code.Some? && h.phase.seen <= Epoch(w, h.request.code.value)
          && (h.request.code.value in w.reg.rows ==> h.phase.seen < Epoch(w, h.request.code.value)))
  }

  ghost predicate HandlersSound(cfg: Config, w: World) {
    forall h :: h in w.handlers ==> HandlerSound(cfg, w, h)
  }

  // ---------------------------------------------------------------------------
  // The invariant: warnings
  // ---------------------------------------------------------------------------

  /** The warning of registration e that has been sent and whose mark is next. */
  function Pending(w: World, e: Registration): nat {
    if w.sweeper.Marking? && w.sweeper.sent && w.sweeper.item.of == e then 1 else 0
  }

  ghost predicate BookSound(cfg: Config, w: World, e: Registration) {
    var b := Book(w, e);
    && b.sent == b.marked + b.lost + Pending(w, e) && b.marked + Pending(w, e) <= 1
    && (b.sent > 0 ==> e.epoch <= Epoch(w, e.code) && e.code != cfg.dropboxCode)
    && (b.marked > 0 && e.code in w.reg.rows && e.epoch == Epoch(w, e.code) ==> w.reg.rows[e.code].ttlWarned)
  }

  /** A record shows a registration that exists; when it shows no flag, no warning of it was marked. */
  ghost predicate ItemSound(cfg: Config, w: World, item: Item) {
    && item.of.epoch <= Epoch(w, item.of.code)
    && (item.conn.Some? ==> item.of.code != cfg.dropboxCode)
    && (item.of.epoch == Epoch(w, item.of.code) && item.of.code in w.reg.rows ==>
          w.reg.rows[item.of.code].expiresAt == item.row.expiresAt)
    && (!item.row.ttlWarned ==> Book(w, item.of).marked == 0)
  }

  function ItemsLeft(s: Sweeper): seq<Item> {
    match s
    case Asleep => []
    case Awake(_) => []
    case Sweeping(_, left) => left
    case Closing(_, _, left) => left
    case Marking(_, item, _, left) => left
  }

  ghost predicate ItemsSound(cfg: Config, w: World, left: seq<Item>) {
    && (forall i :: 0 <= i < |left| ==> ItemSound(cfg, w, left[i]))
    && (forall i, j :: 0 <= i < j < |left| ==> left[i].of.code != left[j].of.code)
  }

  /** The record whose mark is next shows no flag and is not among those left. */
  ghost predicate MarkSound(cfg: Config, w: World) {
    w.sweeper.Marking? ==>
      && ItemSound(cfg, w, w.sweeper.item) && !w.sweeper.item.row.ttlWarned
      && forall i :: 0 <= i < |w.sweeper.left| ==> w.sweeper.left[i].of.code != w.sweeper.item.of.code
  }

  ghost predicate LedgerSound(cfg: Config, w: World) {
    ItemsSound(cfg, w, ItemsLeft(w.sweeper)) && MarkSound(cfg, w) && forall e :: BookSound(cfg, w, e)
  }

  ghost predicate Sound(cfg: Config, w: World) {
    && MapSound(cfg, w) && RowsSound(cfg, w) && HandlersSound(cfg, w) && LedgerSound(cfg, w)
    && Connected(cfg, w) && TicketsSound(w) && LogSound(cfg, w)
  }

  // ---------------------------------------------------------------------------
  // What every step does to an agent's rows
  // ---------------------------------------------------------------------------

  /** Without a new registration a row keeps its deadline, keeps its flag, and does not reappear. */
  ghost predicate SameRegistration(w: World, w': World, code: string) {
    && Epoch(w, code) <= Epoch(w', code)
    && (code in w'.reg.rows && Epoch(w', code) == Epoch(w, code) ==>
          && code in w.reg.rows
          && w'.reg.rows[code].expiresAt == w.reg.rows[code].expiresAt
          && w'.reg.rows[code].createdAt == w.reg.rows[code].createdAt
          && (w.reg.rows[code].ttlWarned ==> w'.reg.rows[code].ttlWarned))
  }

  lemma ReclaimKeepsRegistration(w: World, k: nat, claimed: string, entitled: bool, next: Phase, code: string)
    requires k < |w.handlers|
    ensures SameRegistration(w, ReclaimCall(w, k, claimed, entitled, next), code)
  {
  }

  lemma RegisterKeepsRegistration(cfg: Config, w: World, k: nat, registered: string, code: string)
    requires k < |w.handlers|
    ensures SameRegistration(w, RegisterCall(cfg, w, k, registered), code)
  {
  }

  lemma CallKeepsRegistration(cfg: Config, w: World, k: nat, spare: string, code: string)
    requires k < |w.handlers|
    ensures SameRegistration(w, CallStep(cfg, w, k, spare), code)
  {
    var a := w.handlers[k].request;
    var wanted := if a.code.Some? then a.code.value else "";
    match w.handlers[k].phase
    case TryOwner =>
      ReclaimKeepsRegistration(w, k, wanted, a.owner.Some?
          && SameOwner(w.reg, wanted, a.owner.value), TryAddress, code);
    case TryAddress => ReclaimKeepsRegistration(w, k, wanted, SameIp(w.reg, wanted, a.ip), AskMount, code);
    case RegisterPreferred(_) => RegisterKeepsRegistration(cfg, w, k, wanted, code);
    case RegisterFresh => RegisterKeepsRegistration(cfg, w, k, spare, code);
    case _ =>
  }

  lemma SweepKeepsRegistration(cfg: Config, w: World, order: seq<string>, ok: bool, code: string)
    ensures SameRegistration(w, SweepStep(cfg, w, order, ok), code)
  {
  }

  lemma ActKeepsRegistration(cfg: Config, w: World, action: Action, code: string)
    requires code != cfg.dropboxCode || !action.Reboot?
    ensures SameRegistration(w, Act(cfg, w, action), code)
  {
    match action
    case Call(k, spare) => if k < |w.handlers| { CallKeepsRegistration(cfg, w, k, spare, code); }
    case SweepCall(order, ok) => SweepKeepsRegistration(cfg, w, order, ok, code);
    case _ =>
  }

  // ---------------------------------------------------------------------------
  // Connections
  // ---------------------------------------------------------------------------

  ghost predicate MapSound(cfg: Config, w: World) {
    ConnectionsOnline(w.reg) && LatestStored(cfg, w)
  }

  /** Storing a connection for an agent's ONLINE row. */
  lemma StoreKeepsMap(cfg: Config, w: World, w': World, code: string, conn: ConnId)
    requires MapSound(cfg, w) && code != cfg.dropboxCode && w'.reg.connections == w.reg.connections[code := conn]
    requires code in w'.reg.rows && w'.reg.rows[code].status == Online
    requires forall c :: c in w.reg.rows && c != code ==> c in w'.reg.rows && w'.reg.rows[c] == w.reg.rows[c]
    requires code in w'.history && w'.history[code].stored == Some(conn)
    requires forall c :: c in w.history && c != code ==> c in w'.history && w'.history[c] == w.history[c]
    ensures MapSound(cfg, w')
  {
  }

  lemma ReclaimKeepsMap(cfg: Config, w: World, k: nat, code: string, entitled: bool, next: Phase)
    requires MapSound(cfg, w) && k < |w.handlers| && code != cfg.dropboxCode
    ensures MapSound(cfg, ReclaimCall(w, k, code, entitled, next))
  {
    if Reclaimable(w.reg, code, w.clock) && entitled {
      StoreKeepsMap(cfg, w, ReclaimCall(w, k, code, entitled, next), code, w.handlers[k].request.conn);
    }
  }

  lemma RegisterKeepsMap(cfg: Config, w: World, k: nat, code: string)
    requires MapSound(cfg, w) && k < |w.handlers| && code != cfg.dropboxCode
    ensures MapSound(cfg, RegisterCall(cfg, w, k, code))
  {
    if code != "" { StoreKeepsMap(cfg, w, RegisterCall(cfg, w, k, code), code, w.handlers[k].request.conn); }
  }

  lemma CallKeepsMap(cfg: Config, w: World, k: nat, spare: string)
    requires k < |w.handlers| && MapSound(cfg, w) && HandlerSound(cfg, w, w.handlers[k])
    ensures MapSound(cfg, CallStep(cfg, w, k, spare))
  {
    var a := w.handlers[k].request;
    match w.handlers[k].phase
    case TryOwner => ReclaimKeepsMap(cfg, w, k, a.code.value, a.owner.Some?
        && SameOwner(w.reg, a.code.value, a.owner.value), TryAddress);
    case TryAddress => ReclaimKeepsMap(cfg, w, k, a.code.value, SameIp(w.reg, a.code.value, a.ip), AskMount);
    case RegisterPreferred(_) => RegisterKeepsMap(cfg, w, k, a.code.value);
    case RegisterFresh => if SpareIsFresh(cfg, w, spare) { RegisterKeepsMap(cfg, w, k, spare); }
    case _ =>
  }

  /** A registry call that only takes connections away. */
  lemma ShrinkKeepsMap(cfg: Config, w: World, w': World, op: Op)
    requires MapSound(cfg, w) && w'.history == w.history && w'.reg == MountRegistry.Step(w.reg, op)
    requires op.DoExpire? || op.DoMarkTtlWarned? || op.DoDeleteExpiredBefore? || op.DoCloseConn?
    ensures MapSound(cfg, w')
  {
    StepKeepsConnectionsOnline(w.reg, op);
  }

  lemma VisitKeepsMap(cfg: Config, w: World, at: real, item: Item, rest: seq<Item>, ok: bool)
    requires MapSound(cfg, w)
    ensures MapSound(cfg, VisitItem(cfg, w, at, item, rest, ok))
  {
    var w' := VisitItem(cfg, w, at, item, rest, ok);
    if w'.reg != w.reg { ShrinkKeepsMap(cfg, w, w', DoExpire(item.of.code)); }
  }

  lemma SweepKeepsMap(cfg: Config, w: World, order: seq<string>, ok: bool)
    requires MapSound(cfg, w)
    ensures MapSound(cfg, SweepStep(cfg, w, order, ok))
  {
    var w' := SweepStep(cfg, w, order, ok);
    match w.sweeper
    case Sweeping(at, left) =>
      if left == [] { ShrinkKeepsMap(cfg, w, w', DoDeleteExpiredBefore(at - RETENTION_SECONDS)); }
      else { VisitKeepsMap(cfg, w, at, left[0], left[1..], ok); }
    case Closing(_, conn, _) => ShrinkKeepsMap(cfg, w, w', DoCloseConn(conn));
    case Marking(_, item, _, _) => if w'.reg != w.reg { ShrinkKeepsMap(cfg, w, w', DoMarkTtlWarned(item.of.code)); }
    case _ =>
  }

  lemma ActKeepsMap(cfg: Config, w: World, action: Action)
    requires MapSound(cfg, w) && HandlersSound(cfg, w)
    ensures MapSound(cfg, Act(cfg, w, action))
  {
    match action
    case Call(k, spare) => if k < |w.handlers| { CallKeepsMap(cfg, w, k, spare); }
    case SweepCall(order, ok) => SweepKeepsMap(cfg, w, order, ok);
    case _ =>
  }

  // ---------------------------------------------------------------------------
  // Rows
  // ---------------------------------------------------------------------------

  lemma FloorMonotone(x: real, y: real)
    requires x <= y
    ensures x.Floor <= y.Floor
  {
  }

  lemma TimePasses(cfg: Config, w: World, now: real)
    requires RowsSound(cfg, w) && w.clock <= now
    ensures RowsSound(cfg, w.(clock := now))
  {
    forall code | code in w.reg.rows && code != cfg.dropboxCode
      ensures RowSound(cfg, w.reg.rows[code], w.history[code], now)
    {
      var row := w.reg.rows[code];
      assert RowSound(cfg, row, w.history[code], w.clock);
      FloorMonotone(row.expiresAt.value - now, row.expiresAt.value - w.clock);
    }
  }

  lemma ReclaimKeepsRows(cfg: Config, w: World, k: nat, code: string, entitled: bool, next: Phase)
    requires RowsSound(cfg, w) && k < |w.handlers| && code != cfg.dropboxCode
    ensures RowsSound(cfg, ReclaimCall(w, k, code, entitled, next))
  {
    if Reclaimable(w.reg, code, w.clock) { assert RowSound(cfg, w.reg.rows[code], w.history[code], w.clock); }
  }

  lemma RegisterKeepsRows(cfg: Config, w: World, k: nat, code: string)
    requires RowsSound(cfg, w) && k < |w.handlers|
    ensures RowsSound(cfg, RegisterCall(cfg, w, k, code))
  {
    var ttl := EffectiveTtl(w.handlers[k].request.ttl, cfg.maxTtl);
    assert (w.clock + ttl as real - w.clock).Floor == ttl;
  }

  lemma CallKeepsRows(cfg: Config, w: World, k: nat, spare: string)
    requires RowsSound(cfg, w) && k < |w.handlers| && HandlerSound(cfg, w, w.handlers[k])
    ensures RowsSound(cfg, CallStep(cfg, w, k, spare))
  {
    var a := w.handlers[k].request;
    match w.handlers[k].phase
    case TryOwner => ReclaimKeepsRows(cfg, w, k, a.code.value, a.owner.Some?
        && SameOwner(w.reg, a.code.value, a.owner.value), TryAddress);
    case TryAddress => ReclaimKeepsRows(cfg, w, k, a.code.value, SameIp(w.reg, a.code.value, a.ip), AskMount);
    case RegisterPreferred(_) => RegisterKeepsRows(cfg, w, k, a.code.value);
    case RegisterFresh => RegisterKeepsRows(cfg, w, k, spare);
    case _ =>
  }

  /** Rows keep creation time and deadline, and the books of the codes are the same. */
  lemma SameRowsSound(cfg: Config, w: World, w': World)
    requires RowsSound(cfg, w) && w'.clock == w.clock && w'.history == w.history
    requires forall code :: code in w'.reg.rows && code != cfg.dropboxCode ==>
             code in w.reg.rows && SameRegistration(w, w', code)
    ensures RowsSound(cfg, w')
  {
    forall code | code in w'.reg.rows && code != cfg.dropboxCode
      ensures RowSound(cfg, w'.reg.rows[code], w'.history[code], w'.clock)
    {
      assert RowSound(cfg, w.reg.rows[code], w.history[code], w.clock);
    }
  }

  lemma OtherActKeepsHistory(cfg: Config, w: World, action: Action)
    requires !action.Call?
    ensures Act(cfg, w, action).clock == w.clock && Act(cfg, w, action).history == w.history
  {
  }

  lemma ActKeepsRows(cfg: Config, w: World, action: Action)
    requires RowsSound(cfg, w) && HandlersSound(cfg, w)
    ensures RowsSound(cfg, Act(cfg, w, action))
  {
    if action.Call? {
      if action.handler < |w.handlers| { CallKeepsRows(cfg, w, action.handler, action.spare); }
    } else {
      var w' := Act(cfg, w, action);
      OtherActKeepsHistory(cfg, w, action);
      forall code | code in w'.reg.rows && code != cfg.dropboxCode
        ensures code in w.reg.rows && SameRegistration(w, w', code)
      {
        ActKeepsRegistration(cfg, w, action, code);
        assert Epoch(w', code) == Epoch(w, code);
      }
      SameRowsSound(cfg, w, w');
    }
  }

  // ---------------------------------------------------------------------------
  // Handlers
  // ---------------------------------------------------------------------------

  lemma SameHandlerSound(cfg: Config, w: World, w': World, h: Handler)
    requires HandlerSound(cfg, w, h)
    requires forall code :: code != cfg.dropboxCode ==> SameRegistration(w, w', code)
    ensures HandlerSound(cfg, w', h)
  {
    if h.phase.RegisterPreferred? { assert SameRegistration(w, w', h.request.code.value); }
  }

  /** The phases a call leads to are sound. */
  lemma CalledHandlerSound(cfg: Config, w: World, k: nat, spare: string)
    requires k < |w.handlers| && HandlerSound(cfg, w, w.handlers[k])
    requires CallStep(cfg, w, k, spare) != w
    ensures var w' := CallStep(cfg, w, k, spare);
            |w'.handlers| == |w.handlers| && HandlerSound(cfg, w', w'.handlers[k])
            && forall i :: 0 <= i < |w.handlers| && i != k ==> w'.handlers[i] == w.handlers[i]
  {
  }

  lemma OtherActHandlersSound(cfg: Config, w: World, action: Action, h: Handler)
    requires HandlersSound(cfg, w) && !action.Call? && h in Act(cfg, w, action).handlers && h !in w.handlers
    ensures HandlerSound(cfg, Act(cfg, w, action), h)
  {
    if action.HangUp? || action.Abort? { assert w.handlers[action.handler] in w.handlers; }
  }

  lemma CallKeepsHandlers(cfg: Config, w: World, k: nat, spare: string, h: Handler)
    requires HandlersSound(cfg, w) && k < |w.handlers| && h in CallStep(cfg, w, k, spare).handlers && h !in w.handlers
    ensures HandlerSound(cfg, CallStep(cfg, w, k, spare), h)
  {
    assert w.handlers[k] in w.handlers;
    CalledHandlerSound(cfg, w, k, spare);
  }

  lemma ActKeepsHandlers(cfg: Config, w: World, action: Action)
    requires HandlersSound(cfg, w)
    ensures HandlersSound(cfg, Act(cfg, w, action))
  {
    var w' := Act(cfg, w, action);
    forall code | code != cfg.dropboxCode ensures SameRegistration(w, w', code) {
      ActKeepsRegistration(cfg, w, action, code);
    }
    forall h | h in w'.handlers ensures HandlerSound(cfg, w', h) {
      if h in w.handlers { SameHandlerSound(cfg, w, w', h); }
      else if !action.Call? { OtherActHandlersSound(cfg, w, action, h); }
      else { CallKeepsHandlers(cfg, w, action.handler, action.spare, h); }
    }
  }

  // ---------------------------------------------------------------------------
  // Warnings
  // ---------------------------------------------------------------------------

  ghost predicate BooksSound(cfg: Config, w: World) {
    forall e :: BookSound(cfg, w, e)
  }

  /** The registrations of every code, as far as the books can tell. */
  ghost predicate SameRegistrations(w: World, w': World) {
    forall code :: SameRegistration(w, w', code)
  }

  lemma SameBookSound(cfg: Config, w: World, w': World, e: Registration)
    requires BookSound(cfg, w, e) && SameRegistration(w, w', e.code)
    requires Book(w', e) == Book(w, e) && Pending(w', e) == Pending(w, e)
    ensures BookSound(cfg, w', e)
  {
  }

  lemma SameItemsSound(cfg: Config, w: World, w': World, left: seq<Item>)
    requires ItemsSound(cfg, w, left) && SameRegistrations(w, w')
    requires forall i :: 0 <= i < |left| ==> Book(w', left[i].of).marked == Book(w, left[i].of).marked
    ensures ItemsSound(cfg, w', left)
  {
    forall i | 0 <= i < |left| ensures ItemSound(cfg, w', left[i]) {
      assert ItemSound(cfg, w, left[i]) && SameRegistration(w, w', left[i].of.code);
    }
  }

  /** Steps of handlers and connections do not touch the sweep or its books. */
  lemma QuietKeepsLedger(cfg: Config, w: World, w': World)
    requires LedgerSound(cfg, w) && SameRegistrations(w, w') && w'.ledger == w.ledger && w'.sweeper == w.sweeper
    ensures LedgerSound(cfg, w')
  {
    forall e ensures BookSound(cfg, w', e) { SameBookSound(cfg, w, w', e); }
    SameItemsSound(cfg, w, w', ItemsLeft(w.sweeper));
    if w.sweeper.Marking? { assert SameRegistration(w, w', w.sweeper.item.of.code); }
  }

  /** The sweep moves on without a send: the records left are (a tail of) those before. */
  lemma MoveKeepsLedger(cfg: Config, w: World, w': World)
    requires LedgerSound(cfg, w) && SameRegistrations(w, w') && w'.ledger == w.ledger
    requires !w.sweeper.Marking? && (w'.sweeper.Marking? ==> !w'.sweeper.sent)
    requires var left := ItemsLeft(w.sweeper); ItemsLeft(w'.sweeper) in {[], left, if left == [] then [] else left[1..]}
    requires w'.sweeper.Marking? ==>
               ItemsLeft(w.sweeper) == [w'.sweeper.item] + w'.sweeper.left && !w'.sweeper.item.row.ttlWarned
    ensures LedgerSound(cfg, w')
  {
    forall e ensures BookSound(cfg, w', e) { SameBookSound(cfg, w, w', e); }
    var left := ItemsLeft(w.sweeper);
    SameItemsSound(cfg, w, w', left);
    if w'.sweeper.Marking? {
      assert left[0] == w'.sweeper.item;
      assert forall i :: 0 <= i < |w'.sweeper.left| ==> w'.sweeper.left[i] == left[i + 1];
    }
  }

  lemma SnapshotKeepsLedger(cfg: Config, w: World, at: real, order: seq<string>)
    requires LedgerSound(cfg, w) && LatestStored(cfg, w) && w.sweeper == Awake(at)
    ensures LedgerSound(cfg, Snapshot(w, at, order))
  {
    var w' := Snapshot(w, at, order);
    if w' != w {
      forall e ensures BookSound(cfg, w', e) { assert BookSound(cfg, w, e); }
      forall i | 0 <= i < |order| ensures ItemSound(cfg, w', w'.sweeper.left[i]) {
        assert order[i] in order;
        assert w'.sweeper.left[i] == ItemOf(w, order[i]);
        assert BookSound(cfg, w, Registration(order[i], Epoch(w, order[i])));
      }
    }
  }

  /** A sent warning is entered in the books of the registration that the snapshot showed. */
  lemma SendKeepsLedger(cfg: Config, w: World, w': World, at: real, item: Item, rest: seq<Item>)
    requires LedgerSound(cfg, w) && w.sweeper == Sweeping(at, [item] + rest)
    requires !item.row.ttlWarned && item.conn.Some?
    requires var b := Book(w, item.of);
             w' == w.(sweeper := Marking(at, item, true, rest), ledger := w.ledger[item.of := b.(sent := b.sent + 1)])
    ensures LedgerSound(cfg, w')
  {
    var left := [item] + rest;
    assert left[0] == item && ItemSound(cfg, w, left[0]);
    forall i | 0 <= i < |rest| ensures ItemSound(cfg, w', rest[i]) && rest[i].of.code != item.of.code {
      assert rest[i] == left[i + 1] && ItemSound(cfg, w, left[i + 1]);
    }
    forall i, j | 0 <= i < j < |rest| ensures rest[i].of.code != rest[j].of.code {
      assert rest[i] == left[i + 1] && rest[j] == left[j + 1];
    }
    forall e ensures BookSound(cfg, w', e) { assert BookSound(cfg, w, e); }
  }

  lemma VisitKeepsLedger(cfg: Config, w: World, at: real, item: Item, rest: seq<Item>, ok: bool)
    requires LedgerSound(cfg, w) && w.sweeper == Sweeping(at, [item] + rest)
    requires SameRegistrations(w, VisitItem(cfg, w, at, item, rest, ok))
    ensures LedgerSound(cfg, VisitItem(cfg, w, at, item, rest, ok))
  {
    var w' := VisitItem(cfg, w, at, item, rest, ok);
    assert ([item] + rest)[1..] == rest;
    if w'.sweeper.Marking? && w'.sweeper.sent {
      SendKeepsLedger(cfg, w, w', at, item, rest);
    } else {
      MoveKeepsLedger(cfg, w, w');
    }
  }

  /** The mark, or its absence, is entered in the books. */
  lemma SettleKeepsBooks(cfg: Config, w: World, w': World, followed: bool)
    requires LedgerSound(cfg, w) && w'.ledger == Settle(w, followed) && !w'.sweeper.Marking?
    requires forall code :: code != cfg.dropboxCode ==> SameRegistration(w, w', code)
    requires followed && w.sweeper.Marking? ==>
               var e := w.sweeper.item.of;
               e.code in w'.reg.rows && e.epoch == Epoch(w', e.code) ==> w'.reg.rows[e.code].ttlWarned
    ensures BooksSound(cfg, w')
  {
    forall e ensures BookSound(cfg, w', e) {
      assert BookSound(cfg, w, e);
      if e.code != cfg.dropboxCode { assert SameRegistration(w, w', e.code); }
    }
  }

  lemma MarkKeepsLedger(cfg: Config, w: World, ok: bool)
    requires LedgerSound(cfg, w) && w.sweeper.Marking? && SameRegistrations(w, MarkStep(w, ok))
    ensures LedgerSound(cfg, MarkStep(w, ok))
  {
    var w' := MarkStep(w, ok);
    var e := w.sweeper.item.of;
    SettleKeepsBooks(cfg, w, w', ok && e.code in w.reg.rows && Epoch(w, e.code) == e.epoch);
    SameItemsSound(cfg, w, w', w.sweeper.left);
  }

  lemma SweepKeepsLedger(cfg: Config, w: World, order: seq<string>, ok: bool)
    requires LedgerSound(cfg, w) && LatestStored(cfg, w)
    ensures LedgerSound(cfg, SweepStep(cfg, w, order, ok))
  {
    var w' := SweepStep(cfg, w, order, ok);
    forall code ensures SameRegistration(w, w', code) { SweepKeepsRegistration(cfg, w, order, ok, code); }
    match w.sweeper
    case Asleep =>
    case Awake(at) => SnapshotKeepsLedger(cfg, w, at, order);
    case Sweeping(at, left) =>
      if left == [] { MoveKeepsLedger(cfg, w, w'); }
      else {
        assert left == [left[0]] + left[1..];
        VisitKeepsLedger(cfg, w, at, left[0], left[1..], ok);
      }
    case Closing(_, _, _) => MoveKeepsLedger(cfg, w, w');
    case Marking(_, _, _, _) => MarkKeepsLedger(cfg, w, ok);
  }

  lemma StopKeepsLedger(cfg: Config, w: World, action: Action)
    requires LedgerSound(cfg, w) && (action.CancelSweep? || action.Reboot?)
    ensures LedgerSound(cfg, Act(cfg, w, action))
  {
    var w' := Act(cfg, w, action);
    forall code | code != cfg.dropboxCode ensures SameRegistration(w, w', code) {
      ActKeepsRegistration(cfg, w, action, code);
    }
    SettleKeepsBooks(cfg, w, w', false);
  }

  lemma ActKeepsLedger(cfg: Config, w: World, action: Action)
    requires LedgerSound(cfg, w) && LatestStored(cfg, w)
    ensures LedgerSound(cfg, Act(cfg, w, action))
  {
    if action.SweepCall? {
      SweepKeepsLedger(cfg, w, action.order, action.ok);
    } else if action.CancelSweep? || action.Reboot? {
      StopKeepsLedger(cfg, w, action);
    } else {
      var w' := Act(cfg, w, action);
      forall code ensures SameRegistration(w, w', code) { ActKeepsRegistration(cfg, w, action, code); }
      ActKeepsSweep(cfg, w, action);
      if action.WakeSweep? && w.sweeper == Asleep {
        MoveKeepsLedger(cfg, w, w');
      } else {
        QuietKeepsLedger(cfg, w, w');
      }
    }
  }

  lemma ActKeepsSweep(cfg: Config, w: World, action: Action)
    requires !action.SweepCall? && !action.CancelSweep? && !action.Reboot?
    ensures var w' := Act(cfg, w, action);
            w'.ledger == w.ledger && (w'.sweeper == w.sweeper
                || (action.WakeSweep? && w.sweeper == Asleep && w'.sweeper.Awake?))
  {
  }

  // ---------------------------------------------------------------------------
  // Whose connection is stored
  // ---------------------------------------------------------------------------

  /** Every ONLINE agent mount has a connection. */
  ghost predicate Connected(cfg: Config, w: World) {
    forall code :: code in w.reg.rows && w.reg.rows[code].status == Online && code != cfg.dropboxCode ==>
      code in w.reg.connections
  }

  /** The code a handler has stored its connection for and still works for. */
  function ServedCode(p: Phase): Option<string> {
    match p
    case StoreOwner(code) => Some(code)
    case Serving(code) => Some(code)
    case Leaving(code) => Some(code)
    case _ => None
  }

  predicate BeforeStore(p: Phase) {
    p.TryOwner? || p.TryAddress? || p.AskMount? || p.RegisterPreferred? || p.RegisterFresh?
  }

  /** The connection stored last for a handler's code is its own exactly when nobody has stored one since. */
  ghost predicate TicketSound(w: World, h: Handler) {
    && (BeforeStore(h.phase) ==> h.ticket == 0)
    && (h.ticket == 0 ==> forall code :: code in w.history ==> w.history[code].stored != Some(h.request.conn))
    && (ServedCode(h.phase).Some? ==>
          var now := Known(w, ServedCode(h.phase).value);
          0 < h.ticket <= now.stores && (now.stored == Some(h.request.conn) <==> h.ticket == now.stores))
  }

  ghost predicate TicketsSound(w: World) {
    && (forall i :: 0 <= i < |w.handlers| ==> TicketSound(w, w.handlers[i]))
    && (forall i, j :: 0 <= i < j < |w.handlers| ==> w.handlers[i].request.conn != w.handlers[j].request.conn)
  }

  lemma StoredKeepsTickets(w: World, k: nat, code: string, reg: Registry, h: History)
    requires TicketsSound(w) && k < |w.handlers| && w.handlers[k].ticket == 0
    requires h.stores == Known(w, code).stores + 1 && h.stored == Some(w.handlers[k].request.conn)
    ensures TicketsSound(Stored(w, k, code, reg, h))
  {
    var w' := Stored(w, k, code, reg, h);
    forall i | 0 <= i < |w'.handlers| ensures TicketSound(w', w'.handlers[i]) { assert TicketSound(w, w.handlers[i]); }
  }

  /** Going on without storing anything keeps the tickets. */
  lemma GoKeepsTickets(w: World, w': World, k: nat, phase: Phase)
    requires TicketsSound(w) && k < |w.handlers| && w'.handlers == Go(w, k, phase).handlers && w'.history == w.history
    requires BeforeStore(phase) ==> BeforeStore(w.handlers[k].phase)
    requires ServedCode(phase).Some? ==> ServedCode(w.handlers[k].phase) == ServedCode(phase)
    ensures TicketsSound(w')
  {
    forall i | 0 <= i < |w'.handlers| ensures TicketSound(w', w'.handlers[i]) { assert TicketSound(w, w.handlers[i]); }
  }

  lemma ReclaimKeepsTickets(w: World, k: nat, code: string, entitled: bool, next: Phase)
    requires TicketsSound(w) && k < |w.handlers| && BeforeStore(w.handlers[k].phase) && BeforeStore(next)
    ensures TicketsSound(ReclaimCall(w, k, code, entitled, next))
  {
    var w' := ReclaimCall(w, k, code, entitled, next);
    assert TicketSound(w, w.handlers[k]);
    if Reclaim(w.reg, code, w.handlers[k].request.conn, w.clock, entitled).1.None? {
      GoKeepsTickets(w, w', k, next);
    } else {
      StoredKeepsTickets(w, k, code, w'.reg, w'.history[code]);
    }
  }

  lemma RegisterKeepsTickets(cfg: Config, w: World, k: nat, code: string)
    requires TicketsSound(w) && k < |w.handlers| && BeforeStore(w.handlers[k].phase)
    ensures TicketsSound(RegisterCall(cfg, w, k, code))
  {
    var w' := RegisterCall(cfg, w, k, code);
    assert TicketSound(w, w.handlers[k]);
    if code == "" { GoKeepsTickets(w, w', k, Over); } else { StoredKeepsTickets(w, k, code, w'.reg, w'.history[code]); }
  }

  lemma CallKeepsTickets(cfg: Config, w: World, k: nat, spare: string)
    requires TicketsSound(w) && k < |w.handlers|
    ensures TicketsSound(CallStep(cfg, w, k, spare))
  {
    var a := w.handlers[k].request;
    var code := if a.code.Some? then a.code.value else "";
    var w' := CallStep(cfg, w, k, spare);
    match w.handlers[k].phase
    case TryOwner =>
      ReclaimKeepsTickets(w, k, code, a.owner.Some? && SameOwner(w.reg, code, a.owner.value), TryAddress);
    case TryAddress => ReclaimKeepsTickets(w, k, code, SameIp(w.reg, code, a.ip), AskMount);
    case AskMount => GoKeepsTickets(w, w', k, w'.handlers[k].phase);
    case RegisterPreferred(_) => RegisterKeepsTickets(cfg, w, k, code);
    case RegisterFresh => if SpareIsFresh(cfg, w, spare) { RegisterKeepsTickets(cfg, w, k, spare); }
    case StoreOwner(c) => GoKeepsTickets(w, w', k, Serving(c));
    case Leaving(_) => GoKeepsTickets(w, w', k, Over);
    case _ =>
  }

  lemma BeginKeepsTickets(cfg: Config, w: World, a: AgentRequest)
    requires TicketsSound(w)
    ensures TicketsSound(Act(cfg, w, Begin(a)))
  {
    var w' := Act(cfg, w, Begin(a));
    if w' != w {
      var n := |w.handlers|;
      assert w'.handlers[n] == Handler(a, FirstPhase(a), 0);
      forall i | 0 <= i < n ensures TicketSound(w', w'.handlers[i]) && w'.handlers[i].request.conn != a.conn {
        assert w'.handlers[i] == w.handlers[i] && w.handlers[i] in w.handlers;
      }
    }
  }

  lemma SweepKeepsHandlers(cfg: Config, w: World, order: seq<string>, ok: bool)
    ensures var w' := SweepStep(cfg, w, order, ok); w'.handlers == w.handlers && w'.history == w.history
  {
  }

  lemma ActKeepsTickets(cfg: Config, w: World, action: Action)
    requires TicketsSound(w)
    ensures TicketsSound(Act(cfg, w, action))
  {
    var w' := Act(cfg, w, action);
    match action
    case Begin(a) => BeginKeepsTickets(cfg, w, a);
    case Call(k, spare) => if k < |w.handlers| { CallKeepsTickets(cfg, w, k, spare); }
    case HangUp(k) =>
      if k < |w.handlers| && w.handlers[k].phase.Serving? {
        GoKeepsTickets(w, w', k, Leaving(w.handlers[k].phase.code));
      }
    case Abort(k) => if k < |w.handlers| { GoKeepsTickets(w, w', k, Over); }
    case SweepCall(order, ok) =>
      SweepKeepsHandlers(cfg, w, order, ok);
      SameTickets(w, w');
    case Reboot =>
    case _ => SameTickets(w, w');
  }

  lemma SameTickets(w: World, w': World)
    requires TicketsSound(w) && w'.handlers == w.handlers && w'.history == w.history
    ensures TicketsSound(w')
  {
    forall i | 0 <= i < |w'.handlers| ensures TicketSound(w', w'.handlers[i]) { assert TicketSound(w, w.handlers[i]); }
  }

  // Every ONLINE agent mount keeps its connection

  lemma ReclaimKeepsConnected(cfg: Config, w: World, k: nat, code: string, entitled: bool, next: Phase)
    requires Connected(cfg, w) && k < |w.handlers|
    ensures Connected(cfg, ReclaimCall(w, k, code, entitled, next))
  {
  }

  lemma RegisterKeepsConnected(cfg: Config, w: World, k: nat, code: string)
    requires Connected(cfg, w) && k < |w.handlers|
    ensures Connected(cfg, RegisterCall(cfg, w, k, code))
  {
  }

  lemma CallKeepsConnected(cfg: Config, w: World, k: nat, spare: string)
    requires Connected(cfg, w) && k < |w.handlers|
    ensures Connected(cfg, CallStep(cfg, w, k, spare))
  {
    var a := w.handlers[k].request;
    var code := if a.code.Some? then a.code.value else "";
    match w.handlers[k].phase
    case TryOwner =>
      ReclaimKeepsConnected(cfg, w, k, code, a.owner.Some? && SameOwner(w.reg, code, a.owner.value), TryAddress);
    case TryAddress => ReclaimKeepsConnected(cfg, w, k, code, SameIp(w.reg, code, a.ip), AskMount);
    case RegisterPreferred(_) => RegisterKeepsConnected(cfg, w, k, code);
    case RegisterFresh => RegisterKeepsConnected(cfg, w, k, spare);
    case _ =>
  }

  lemma SweepKeepsConnected(cfg: Config, w: World, order: seq<string>, ok: bool)
    requires Connected(cfg, w)
    ensures Connected(cfg, SweepStep(cfg, w, order, ok))
  {
  }

  lemma ActKeepsConnected(cfg: Config, w: World, action: Action)
    requires Connected(cfg, w)
    ensures Connected(cfg, Act(cfg, w, action))
  {
    match action
    case Call(k, spare) => if k < |w.handlers| { CallKeepsConnected(cfg, w, k, spare); }
    case SweepCall(order, ok) => SweepKeepsConnected(cfg, w, order, ok);
    case _ =>
  }

  // ---------------------------------------------------------------------------
  // What a sweep has done so far
  // ---------------------------------------------------------------------------

  /** The sweep has its snapshot and is not over. */
  predicate UnderWay(s: Sweeper) {
    s.Sweeping? || s.Closing? || s.Marking?
  }

  function SnapshotEpoch(w: World, code: string): nat {
    if code in w.log.epochs then w.log.epochs[code] else 0
  }

  function Current(w: World, code: string): Registration {
    Registration(code, Epoch(w, code))
  }

  /**
   The present registration of `code` was left alone: its expire call raised, or it is newer than the snapshot
   and was not hit.
   */
  ghost predicate Spared(w: World, code: string) {
    || Current(w, code) in w.log.raised
    || (SnapshotEpoch(w, code) < Epoch(w, code) && Current(w, code) !in w.log.hit)
  }

  /** An overdue record of the present registration of `code` is still to be visited. */
  ghost predicate ToVisit(w: World, code: string) {
    exists i :: 0 <= i < |ItemsLeft(w.sweeper)|
                && ItemsLeft(w.sweeper)[i].of == Current(w, code) && Overdue(ItemsLeft(w.sweeper)[i].row, w.sweeper.at)
  }

  /** A record of the present registration of `code` is still to be visited. */
  ghost predicate Listed(w: World, code: string) {
    exists i :: 0 <= i < |ItemsLeft(w.sweeper)| && ItemsLeft(w.sweeper)[i].of == Current(w, code)
  }

  /** What the log says about the present row of `code`. */
  ghost predicate RowLogged(w: World, code: string)
    requires UnderWay(w.sweeper)
  {
    code in w.reg.rows ==>
      && (Overdue(w.reg.rows[code], w.sweeper.at) ==> Spared(w, code) || ToVisit(w, code))
      && (Spared(w, code) || Listed(w, code) ==> w.reg.rows[code].status != Expired)
      && (Current(w, code) in w.log.hit ==> w.reg.rows[code].status == Expired)
      && (SnapshotEpoch(w, code) < Epoch(w, code) ==> w.sweeper.at <= w.reg.rows[code].createdAt)
  }

  /** Logged registrations exist, and their records have been visited. */
  ghost predicate LogInside(w: World)
    requires UnderWay(w.sweeper)
  {
    && (forall e :: e in w.log.raised || e in w.log.hit ==>
          && e.epoch <= Epoch(w, e.code)
          && forall i :: 0 <= i < |ItemsLeft(w.sweeper)| ==> ItemsLeft(w.sweeper)[i].of.code != e.code)
    && (forall code :: SnapshotEpoch(w, code) <= Epoch(w, code))
    && w.sweeper.at <= w.clock
  }

  ghost predicate LogSound(cfg: Config, w: World) {
    && (w.sweeper.Awake? ==> w.sweeper.at <= w.clock)
    && (UnderWay(w.sweeper) ==> LogInside(w) && forall code :: code != cfg.dropboxCode ==> RowLogged(w, code))
  }

  /** What a step of somebody else does to a row while a sweep that started at `at` is under way. */
  ghost predicate Evolves(w: World, w': World, code: string, at: real) {
    && Epoch(w, code) <= Epoch(w', code)
    && (code in w'.reg.rows ==>
          if Epoch(w', code) == Epoch(w, code) then
            && code in w.reg.rows
            && (w'.reg.rows[code].status == Expired <==> w.reg.rows[code].status == Expired)
            && (Overdue(w'.reg.rows[code], at) ==> Overdue(w.reg.rows[code], at))
            && w'.reg.rows[code].createdAt == w.reg.rows[code].createdAt
          else w'.reg.rows[code].status == Online && at <= w'.reg.rows[code].createdAt)
  }

  lemma EvolvesKeepsLogged(w: World, w': World, code: string)
    requires UnderWay(w.sweeper) && w'.sweeper == w.sweeper && w'.log == w.log
    requires LogInside(w) && RowLogged(w, code) && Evolves(w, w', code, w.sweeper.at)
    ensures RowLogged(w', code)
  {
  }

  lemma EvolvesKeepsLog(cfg: Config, w: World, w': World)
    requires LogSound(cfg, w) && w'.sweeper == w.sweeper && w'.log == w.log && w.clock <= w'.clock
    requires UnderWay(w.sweeper) ==>
               && (forall code :: Epoch(w, code) <= Epoch(w', code))
               && forall code :: code != cfg.dropboxCode ==> Evolves(w, w', code, w.sweeper.at)
    ensures LogSound(cfg, w')
  {
    if UnderWay(w.sweeper) {
      forall code | code != cfg.dropboxCode ensures RowLogged(w', code) { EvolvesKeepsLogged(w, w', code); }
    }
  }

  lemma ReclaimEvolves(w: World, k: nat, claimed: string, entitled: bool, next: Phase, code: string, at: real)
    requires k < |w.handlers| && at <= w.clock
    ensures Evolves(w, ReclaimCall(w, k, claimed, entitled, next), code, at)
  {
  }

  lemma RegisterEvolves(cfg: Config, w: World, k: nat, registered: string, code: string, at: real)
    requires k < |w.handlers| && at <= w.clock
    ensures Evolves(w, RegisterCall(cfg, w, k, registered), code, at)
  {
  }

  lemma CallEvolves(cfg: Config, w: World, k: nat, spare: string, code: string, at: real)
    requires k < |w.handlers| && at <= w.clock
    ensures Evolves(w, CallStep(cfg, w, k, spare), code, at)
  {
    var a := w.handlers[k].request;
    var wanted := if a.code.Some? then a.code.value else "";
    match w.handlers[k].phase
    case TryOwner =>
      ReclaimEvolves(w, k, wanted, a.owner.Some? && SameOwner(w.reg, wanted, a.owner.value), TryAddress, code, at);
    case TryAddress => ReclaimEvolves(w, k, wanted, SameIp(w.reg, wanted, a.ip), AskMount, code, at);
    case RegisterPreferred(_) => RegisterEvolves(cfg, w, k, wanted, code, at);
    case RegisterFresh => RegisterEvolves(cfg, w, k, spare, code, at);
    case _ =>
  }

  lemma CallKeepsLog(cfg: Config, w: World, k: nat, spare: string)
    requires LogSound(cfg, w) && k < |w.handlers|
    ensures LogSound(cfg, CallStep(cfg, w, k, spare))
  {
    var w' := CallStep(cfg, w, k, spare);
    if UnderWay(w.sweeper) {
      forall code ensures Evolves(w, w', code, w.sweeper.at) { CallEvolves(cfg, w, k, spare, code, w.sweeper.at); }
    }
    EvolvesKeepsLog(cfg, w, w');
  }

  lemma SnapshotKeepsLog(cfg: Config, w: World, order: seq<string>)
    requires LogSound(cfg, w) && w.sweeper.Awake?
    ensures LogSound(cfg, Snapshot(w, w.sweeper.at, order))
  {
    var at := w.sweeper.at;
    var w' := Snapshot(w, at, order);
    if IsSnapshotOrder(w.reg, order) {
      forall code | code in w'.reg.rows && Overdue(w'.reg.rows[code], at) ensures ToVisit(w', code) {
        var i :| 0 <= i < |order| && order[i] == code;
        assert ItemsLeft(w'.sweeper)[i] == ItemOf(w, code);
      }
    }
  }

  /** The records left are the same, or the first one was passed over because it is not overdue. */
  ghost predicate Passes(w: World, w': World)
    requires UnderWay(w.sweeper)
  {
    var left := ItemsLeft(w.sweeper);
    || ItemsLeft(w'.sweeper) == left
    || (left != [] && ItemsLeft(w'.sweeper) == left[1..] && !Overdue(left[0].row, w.sweeper.at))
  }

  /** Moving on to the next record without an expire call. */
  lemma PassKeepsLog(cfg: Config, w: World, w': World)
    requires LogSound(cfg, w) && UnderWay(w.sweeper) && UnderWay(w'.sweeper) && w'.sweeper.at == w.sweeper.at
    requires w'.log == w.log && w'.clock == w.clock && w'.history == w.history
    requires Passes(w, w')
    requires forall code :: Evolves(w, w', code, w.sweeper.at)
    ensures LogSound(cfg, w')
  {
    forall code | code != cfg.dropboxCode ensures RowLogged(w', code) { PassKeepsLogged(w, w', code); }
    forall code ensures SnapshotEpoch(w', code) <= Epoch(w', code) {
      assert SnapshotEpoch(w, code) <= Epoch(w, code);
    }
  }

  lemma PassKeepsLogged(w: World, w': World, code: string)
    requires UnderWay(w.sweeper) && UnderWay(w'.sweeper) && w'.sweeper.at == w.sweeper.at && w'.log == w.log
    requires LogInside(w) && RowLogged(w, code) && w'.history == w.history && Evolves(w, w', code, w.sweeper.at)
    requires Passes(w, w')
    ensures RowLogged(w', code)
  {
    var left, left' := ItemsLeft(w.sweeper), ItemsLeft(w'.sweeper);
    if ToVisit(w, code) {
      var i :| 0 <= i < |left| && left[i].of == Current(w, code) && Overdue(left[i].row, w.sweeper.at);
      if left' != left { assert left'[i - 1] == left[i]; }
    }
    if Listed(w', code) {
      var i :| 0 <= i < |left'| && left'[i].of == Current(w', code);
      if left' != left { assert left[i + 1] == left'[i]; }
    }
  }

  lemma ExpireKeepsInside(cfg: Config, w: World, at: real, item: Item, rest: seq<Item>, ok: bool)
    requires w.sweeper == Sweeping(at, [item] + rest) && LogInside(w) && ItemsSound(cfg, w, [item] + rest)
    ensures UnderWay(ExpireItem(w, at, item, rest, ok).sweeper) && LogInside(ExpireItem(w, at, item, rest, ok))
  {
    var w' := ExpireItem(w, at, item, rest, ok);
    var left := [item] + rest;
    assert left[0] == item && ItemSound(cfg, w, left[0]);
    assert forall i :: 0 <= i < |rest| ==> rest[i] == left[i + 1];
    assert ItemsLeft(w'.sweeper) == rest;
    forall code ensures SnapshotEpoch(w', code) <= Epoch(w', code) {
      assert SnapshotEpoch(w, code) <= Epoch(w, code);
    }
    forall e | e in w'.log.raised || e in w'.log.hit
      ensures e.epoch <= Epoch(w', e.code) && forall i :: 0 <= i < |rest| ==> rest[i].of.code != e.code
    {
      if e in w.log.raised || e in w.log.hit {
        forall i | 0 <= i < |rest| ensures rest[i].of.code != e.code {
          assert ItemsLeft(w.sweeper)[i + 1] == rest[i];
        }
      }
    }
  }

  /** The expire call, successful or not. */
  lemma ExpireKeepsLog(cfg: Config, w: World, at: real, item: Item, rest: seq<Item>, ok: bool)
    requires LogSound(cfg, w) && w.sweeper == Sweeping(at, [item] + rest) && ItemsSound(cfg, w, [item] + rest)
    ensures LogSound(cfg, ExpireItem(w, at, item, rest, ok))
  {
    var w' := ExpireItem(w, at, item, rest, ok);
    var left := [item] + rest;
    assert left[0] == item && ItemSound(cfg, w, left[0]);
    assert forall i :: 0 <= i < |rest| ==> rest[i] == left[i + 1];
    ExpireKeepsInside(cfg, w, at, item, rest, ok);
    forall code | code != cfg.dropboxCode ensures RowLogged(w', code) {
      if code == item.of.code {
        ExpiredIsLogged(w, at, item, rest, ok);
      } else {
        OtherStaysLogged(w, at, item, rest, ok, code);
      }
    }
  }

  lemma OtherStaysLogged(w: World, at: real, item: Item, rest: seq<Item>, ok: bool, code: string)
    requires w.sweeper == Sweeping(at, [item] + rest) && RowLogged(w, code) && code != item.of.code
    ensures UnderWay(ExpireItem(w, at, item, rest, ok).sweeper) && RowLogged(ExpireItem(w, at, item, rest, ok), code)
  {
    var w' := ExpireItem(w, at, item, rest, ok);
    assert ItemsLeft(w'.sweeper) == rest;
    var left := [item] + rest;
    assert forall i :: 0 <= i < |rest| ==> left[i + 1] == rest[i];
    if ToVisit(w, code) {
      var i :| 0 <= i < |left| && left[i].of == Current(w, code) && Overdue(left[i].row, at);
      assert rest[i - 1] == left[i];
    }
    if Listed(w', code) {
      var i :| 0 <= i < |rest| && rest[i].of == Current(w', code);
      assert ItemsLeft(w.sweeper)[i + 1] == rest[i];
    }
  }

  lemma ExpiredIsLogged(w: World, at: real, item: Item, rest: seq<Item>, ok: bool)
    requires w.sweeper == Sweeping(at, [item] + rest) && LogInside(w) && RowLogged(w, item.of.code)
    requires item.of.epoch <= Epoch(w, item.of.code)
    requires forall i :: 0 <= i < |rest| ==> rest[i].of.code != item.of.code
    ensures UnderWay(ExpireItem(w, at, item, rest, ok).sweeper)
    ensures RowLogged(ExpireItem(w, at, item, rest, ok), item.of.code)
  {
    var w' := ExpireItem(w, at, item, rest, ok);
    var code := item.of.code;
    var left := [item] + rest;
    assert left[0] == item && ItemsLeft(w.sweeper)[0].of.code == code;
    assert Current(w, code) !in w.log.raised && Current(w, code) !in w.log.hit;
    assert item.of == Current(w, code) ==> Listed(w, code);
    if ToVisit(w, code) {
      var i :| 0 <= i < |left| && left[i].of == Current(w, code) && Overdue(left[i].row, at);
      assert i > 0 ==> left[i] == rest[i - 1];
    }
  }

  lemma VisitKeepsLog(cfg: Config, w: World, at: real, item: Item, rest: seq<Item>, ok: bool)
    requires LogSound(cfg, w) && w.sweeper == Sweeping(at, [item] + rest) && ItemsSound(cfg, w, [item] + rest)
    ensures LogSound(cfg, VisitItem(cfg, w, at, item, rest, ok))
  {
    var w' := VisitItem(cfg, w, at, item, rest, ok);
    if Overdue(item.row, at) {
      ExpireKeepsLog(cfg, w, at, item, rest, ok);
    } else {
      assert ([item] + rest)[1..] == rest && ([item] + rest)[0] == item;
      PassKeepsLog(cfg, w, w');
    }
  }

  lemma SweepKeepsLog(cfg: Config, w: World, order: seq<string>, ok: bool)
    requires LogSound(cfg, w) && LedgerSound(cfg, w)
    ensures LogSound(cfg, SweepStep(cfg, w, order, ok))
  {
    var w' := SweepStep(cfg, w, order, ok);
    match w.sweeper
    case Asleep =>
    case Awake(at) => SnapshotKeepsLog(cfg, w, order);
    case Sweeping(at, left) =>
      if left != [] {
        assert left == [left[0]] + left[1..];
        VisitKeepsLog(cfg, w, at, left[0], left[1..], ok);
      }
    case Closing(_, _, _) => PassKeepsLog(cfg, w, w');
    case Marking(_, _, _, _) => PassKeepsLog(cfg, w, w');
  }

  lemma ActKeepsLog(cfg: Config, w: World, action: Action)
    requires LogSound(cfg, w) && LedgerSound(cfg, w)
    ensures LogSound(cfg, Act(cfg, w, action))
  {
    match action
    case Call(k, spare) => if k < |w.handlers| { CallKeepsLog(cfg, w, k, spare); }
    case SweepCall(order, ok) => SweepKeepsLog(cfg, w, order, ok);
    case WakeSweep =>
    case CancelSweep =>
    case Reboot =>
    case _ => EvolvesKeepsLog(cfg, w, Act(cfg, w, action));
  }

  // ---------------------------------------------------------------------------
  // Every run
  // ---------------------------------------------------------------------------

  lemma ClockKeepsSound(cfg: Config, w: World, now: real)
    requires Sound(cfg, w) && w.clock <= now
    ensures Sound(cfg, w.(clock := now))
  {
    var w' := w.(clock := now);
    TimePasses(cfg, w, now);
    forall h | h in w'.handlers ensures HandlerSound(cfg, w', h) { assert HandlerSound(cfg, w, h); }
    assert SameRegistrations(w, w');
    QuietKeepsLedger(cfg, w, w');
    SameTickets(w, w');
    EvolvesKeepsLog(cfg, w, w');
  }

  lemma StepKeepsSound(cfg: Config, w: World, now: real, action: Action)
    requires Sound(cfg, w)
    ensures Sound(cfg, Step(cfg, w, now, action))
  {
    if now >= w.clock {
      var v := w.(clock := now);
      ClockKeepsSound(cfg, w, now);
      ActKeepsMap(cfg, v, action);
      ActKeepsRows(cfg, v, action);
      ActKeepsHandlers(cfg, v, action);
      ActKeepsLedger(cfg, v, action);
      ActKeepsConnected(cfg, v, action);
      ActKeepsTickets(cfg, v, action);
      ActKeepsLog(cfg, v, action);
    }
  }

  lemma {:induction false} RunKeepsSound(cfg: Config, w: World, steps: seq<(real, Action)>)
    requires Sound(cfg, w)
    ensures Sound(cfg, Run(cfg, w, steps))
    decreases steps
  {
    if steps != [] {
      StepKeepsSound(cfg, w, steps[0].0, steps[0].1);
      RunKeepsSound(cfg, Step(cfg, w, steps[0].0, steps[0].1), steps[1..]);
    }
  }

  lemma BootIsSound(cfg: Config, now: real)
    ensures Sound(cfg, Boot(cfg, now))
  {
  }

  /**
   Over every run, with restarts anywhere: a connection that get_connection hands out is open and is the one
   stored by the latest registration or reclaim of its code; an agent's deadline is within the cap; and of
   the warnings of a registration all but at most one were not followed by their mark.
   */
  lemma EveryRunIsSound(cfg: Config, start: real, steps: seq<(real, Action)>, code: string, e: Registration)
    ensures var w := Run(cfg, Boot(cfg, start), steps);
            && (LookUp(w.reg, code).Success? ==>
                  && LookUp(w.reg, code).value !in w.reg.closed
                  && code in w.history && w.history[code].stored == Some(LookUp(w.reg, code).value))
            && (code in w.reg.rows && code != cfg.dropboxCode ==>
                  && w.reg.rows[code].expiresAt.Some?
                  && w.reg.rows[code].expiresAt.value <= w.reg.rows[code].createdAt + cfg.maxTtl as real)
            && Book(w, e).sent <= Book(w, e).lost + 1
  {
    BootIsSound(cfg, start);
    RunKeepsSound(cfg, Boot(cfg, start), steps);
    var w := Run(cfg, Boot(cfg, start), steps);
    assert BookSound(cfg, w, e);
    if code in w.reg.rows && code != cfg.dropboxCode {
      assert RowSound(cfg, w.reg.rows[code], w.history[code], w.clock);
    }
  }

  // ---------------------------------------------------------------------------
  // What a sweep does, call by call
  // ---------------------------------------------------------------------------

  /** The next call of the sweep expires the mount `code`. */
  ghost predicate Hits(w: World, action: Action, code: string) {
    && action.SweepCall? && action.ok && w.sweeper.Sweeping? && w.sweeper.left != [] && code in w.reg.rows
    && w.sweeper.left[0].of.code == code && Overdue(w.sweeper.left[0].row, w.sweeper.at)
  }

  /** The next call of the sweep is the deletion of rows past retention. */
  ghost predicate Deletes(w: World, action: Action) {
    action.SweepCall? && w.sweeper.Sweeping? && w.sweeper.left == []
  }

  lemma VisitIsExact(cfg: Config, w: World, at: real, item: Item, rest: seq<Item>, ok: bool, code: string)
    requires code in w.reg.rows
    ensures var w' := VisitItem(cfg, w, at, item, rest, ok); var row := w.reg.rows[code];
            && code in w'.reg.rows && w'.reg.rows[code].(status := row.status) == row
            && w'.reg.rows[code].status ==
               if ok && item.of.code == code && Overdue(item.row, at) then Expired else row.status
  {
  }

  /**
   A call of the sweep touches a row in three ways only: it expires the mount it comes to, sets a flag, or
   deletes a row past retention.
   */
  lemma SweepCallIsExact(cfg: Config, w: World, now: real, order: seq<string>, ok: bool, code: string)
    requires w.clock <= now && code in w.reg.rows
    ensures var action := SweepCall(order, ok); var w' := Step(cfg, w, now, action); var row := w.reg.rows[code];
            && (code !in w'.reg.rows <==>
                  Deletes(w, action) && PastRetention(row, w.sweeper.at - RETENTION_SECONDS))
            && (code in w'.reg.rows ==>
                  && w'.reg.rows[code].(ttlWarned := row.ttlWarned, status := row.status) == row
                  && w'.reg.rows[code].status == if Hits(w, action, code) then Expired else row.status)
  {
    var v := w.(clock := now);
    match w.sweeper
    case Sweeping(at, left) =>
      if left != [] {
        VisitIsExact(cfg, v, at, left[0], left[1..], ok, code);
        assert Step(cfg, w, now, SweepCall(order, ok)) == VisitItem(cfg, v, at, left[0], left[1..], ok);
      }
    case _ =>
  }

  /** The mount is expired by this step although its deadline is still ahead. */
  ghost predicate ExpiredEarly(w: World, w': World, code: string) {
    && code in w.reg.rows && w.reg.rows[code].status != Expired
    && code in w'.reg.rows && w'.reg.rows[code].status == Expired
    && w'.reg.rows[code].expiresAt.Some? && w'.clock < w'.reg.rows[code].expiresAt.value
  }

  /**
   In every run a mount is expired before its deadline if and only if the sweep's expire call hits a
   registration later than the one its snapshot showed, and that registration's deadline is ahead.
   */
  lemma EarlyExpiryExactlyWhen(cfg: Config, start: real, steps: seq<(real, Action)>, now: real, action: Action,
                               code: string)
    requires var w := Run(cfg, Boot(cfg, start), steps);
             w.clock <= now && code != cfg.dropboxCode && code in w.reg.rows && w.reg.rows[code].status != Expired
    ensures var w := Run(cfg, Boot(cfg, start), steps);
            ExpiredEarly(w, Step(cfg, w, now, action), code) <==>
              && Hits(w, action, code) && w.sweeper.left[0].of.epoch < Epoch(w, code)
              && w.reg.rows[code].expiresAt.Some? && now < w.reg.rows[code].expiresAt.value
  {
    var w := Run(cfg, Boot(cfg, start), steps);
    BootIsSound(cfg, start);
    RunKeepsSound(cfg, Boot(cfg, start), steps);
    if action.SweepCall? {
      SweepCallIsExact(cfg, w, now, action.order, action.ok, code);
      if Hits(w, action, code) { assert ItemSound(cfg, w, ItemsLeft(w.sweeper)[0]); }
    } else {
      OnlySweepsExpireEarly(cfg, w.(clock := now), action, code);
    }
  }

  /** Handlers expire nothing, and a restart only what is overdue. */
  lemma OnlySweepsExpireEarly(cfg: Config, w: World, action: Action, code: string)
    requires !action.SweepCall? && code != cfg.dropboxCode && code in w.reg.rows && w.reg.rows[code].status != Expired
    ensures !ExpiredEarly(w, Act(cfg, w, action), code)
  {
    if action.Call? && action.handler < |w.handlers| { CallsExpireNothing(cfg, w, action.handler, action.spare, code); }
  }

  lemma CallsExpireNothing(cfg: Config, w: World, k: nat, spare: string, code: string)
    requires k < |w.handlers| && code in w.reg.rows && w.reg.rows[code].status != Expired
    ensures code in CallStep(cfg, w, k, spare).reg.rows ==> CallStep(cfg, w, k, spare).reg.rows[code].status != Expired
  {
    CallEvolves(cfg, w, k, spare, code, w.clock);
  }

  /**
   The postcondition of a sweep in any run, whoever interferes: when it is over, no EXPIRED row is past
   retention, and a row whose deadline was past when the sweep started, and that is not OFFLINE, is still
   ONLINE if and only if its expire call raised in this sweep, or it was registered after the snapshot and no
   expire call hit it.
   */
  lemma CompletedSweepIsExact(cfg: Config, start: real, steps: seq<(real, Action)>, now: real, ok: bool, code: string)
    requires var w := Run(cfg, Boot(cfg, start), steps);
             w.clock <= now && code != cfg.dropboxCode && w.sweeper.Sweeping? && w.sweeper.left == []
    ensures var w := Run(cfg, Boot(cfg, start), steps); var w' := Step(cfg, w, now, SweepCall([], ok));
            var at := w.sweeper.at;
            w'.sweeper == Asleep &&
            (code in w'.reg.rows ==>
               var row := w'.reg.rows[code];
               && !PastRetention(row, at - RETENTION_SECONDS)
               && (row.status != Offline && row.expiresAt.Some? && row.expiresAt.value <= at ==>
                     (row.status == Online <==> Spared(w, code)))
               && (Overdue(row, at) && SnapshotEpoch(w, code) < Epoch(w, code) ==>
                     row.expiresAt.value <= row.createdAt))
  {
    var w := Run(cfg, Boot(cfg, start), steps);
    BootIsSound(cfg, start);
    RunKeepsSound(cfg, Boot(cfg, start), steps);
    assert RowLogged(w, code);
    assert ItemsLeft(w.sweeper) == [] && !ToVisit(w, code);
  }

  // ---------------------------------------------------------------------------
  // Whose mount a leaving handler takes down
  // ---------------------------------------------------------------------------

  /**
   In every run, when a leaving handler's mark_offline takes an ONLINE mount down, the connection it drops is
   another handler's if and only if the code was registered or reclaimed after this handler stored its own.
   */
  lemma LeavingTakesDownAnotherExactlyWhen(cfg: Config, start: real, steps: seq<(real, Action)>, now: real, k: nat,
                                           code: string)
    requires var w := Run(cfg, Boot(cfg, start), steps);
             && w.clock <= now && k < |w.handlers| && w.handlers[k].phase == Leaving(code)
             && code in w.reg.rows && w.reg.rows[code].status == Online && code != cfg.dropboxCode
    ensures var w := Run(cfg, Boot(cfg, start), steps); var w' := Step(cfg, w, now, Call(k, ""));
            && code in w'.reg.rows && w'.reg.rows[code].status == Offline && code !in w'.reg.connections
            && code in w.reg.connections
            && (w.reg.connections[code] != w.handlers[k].request.conn <==> w.handlers[k].ticket < Known(w, code).stores)
  {
    var w := Run(cfg, Boot(cfg, start), steps);
    BootIsSound(cfg, start);
    RunKeepsSound(cfg, Boot(cfg, start), steps);
    assert TicketSound(w, w.handlers[k]);
  }

  /**
   An agent hangs up and nobody interrupts its handler: get_connection no longer hands its connection out,
   an ONLINE row of its code goes OFFLINE as it was, and nothing else in the table changes.
   */
  lemma HangUpAlone(cfg: Config, w: World, k: nat, code: string)
    requires k < |w.handlers| && w.handlers[k].phase == Serving(code)
    ensures var w1 := Act(cfg, w, HangUp(k)); var w2 := Act(cfg, w1, Call(k, ""));
            && w1.reg.closed == w.reg.closed + {w.handlers[k].request.conn} && w1.reg.rows == w.reg.rows
            && (forall c :: LookUp(w1.reg, c) != Success(w.handlers[k].request.conn))
            && w2.reg.closed == w1.reg.closed && w2.handlers == w.handlers[k := w.handlers[k].(phase := Over)]
            && if code in w.reg.rows && w.reg.rows[code].status == Online
               then w2.reg.rows == w.reg.rows[code := w.reg.rows[code].(status := Offline)]
                    && w2.reg.connections == w.reg.connections - {code}
               else w2.reg.rows == w.reg.rows && w2.reg.connections == w.reg.connections
  {
  }

  lemma CallKeepsClosed(cfg: Config, w: World, k: nat, spare: string)
    requires k < |w.handlers|
    ensures w.reg.closed <= CallStep(cfg, w, k, spare).reg.closed
  {
  }

  lemma SweepKeepsClosed(cfg: Config, w: World, order: seq<string>, ok: bool)
    ensures w.reg.closed <= SweepStep(cfg, w, order, ok).reg.closed
  {
  }

  lemma StepKeepsClosed(cfg: Config, w: World, now: real, action: Action)
    ensures w.reg.closed <= Step(cfg, w, now, action).reg.closed
  {
    var v := w.(clock := now);
    match action
    case Call(k, spare) => if k < |w.handlers| { CallKeepsClosed(cfg, v, k, spare); }
    case SweepCall(order, ok) => SweepKeepsClosed(cfg, v, order, ok);
    case _ =>
  }

  lemma {:induction false} RunKeepsClosed(cfg: Config, w: World, steps: seq<(real, Action)>)
    ensures w.reg.closed <= Run(cfg, w, steps).reg.closed
    decreases steps
  {
    if steps != [] {
      StepKeepsClosed(cfg, w, steps[0].0, steps[0].1);
      RunKeepsClosed(cfg, Step(cfg, w, steps[0].0, steps[0].1), steps[1..]);
    }
  }

  /** Once the heartbeat has given a connection up, get_connection never hands it out again, whatever happens. */
  lemma TornDownForever(cfg: Config, w: World, now: real, conn: ConnId, steps: seq<(real, Action)>, code: string)
    requires w.clock <= now
    ensures LookUp(Run(cfg, Step(cfg, w, now, TearDown(conn)), steps).reg, code) != Success(conn)
  {
    RunKeepsClosed(cfg, Step(cfg, w, now, TearDown(conn)), steps);
  }

  /** A restart: no handler, connection or sweep is left, and the local mount is there without a deadline. */
  lemma RebootIsExact(cfg: Config, w: World)
    requires cfg.dropboxCode != ""
    ensures var w' := Act(cfg, w, Reboot);
            && w'.handlers == [] && w'.sweeper == Asleep && w'.reg.connections == map[] && w'.clock == w.clock
            && cfg.dropboxCode in w'.reg.rows
            && w'.reg.rows[cfg.dropboxCode] == Row(Online, "127.0.0.1", w.clock, None, false, None)
            && (forall code :: code != cfg.dropboxCode ==>
                  (code in w'.reg.rows <==> code in Restart(w.reg, w.clock).rows))
            && (forall code :: code in w'.reg.rows && code != cfg.dropboxCode ==> w'.reg.rows[code].status != Online)
  {
  }

  /** The count of stores goes up exactly when a handler registers or reclaims the code. */
  lemma StoresCountStores(cfg: Config, w: World, now: real, action: Action, code: string)
    requires w.clock <= now
    ensures var w' := Step(cfg, w, now, action);
            var storing := action.Call? && action.handler < |w.handlers|
                && BeforeStore(w.handlers[action.handler].phase)
                           && w'.handlers[action.handler].phase == StoreOwner(code);
            Known(w', code).stores == Known(w, code).stores + if storing then 1 else 0
  {
    var v := w.(clock := now);
    if !action.Call? {
      OtherActKeepsHistory(cfg, v, action);
    } else if action.handler < |w.handlers| {
      CallCountsStores(cfg, v, action.handler, action.spare, code);
    }
  }

  /** What a call does to the count for `code`. */
  ghost predicate CountsStores(w: World, w': World, k: nat, code: string)
    requires k < |w.handlers|
  {
    && |w'.handlers| == |w.handlers|
    && Known(w', code).stores == Known(w, code).stores +
         if BeforeStore(w.handlers[k].phase) && w'.handlers[k].phase == StoreOwner(code) then 1 else 0
  }

  lemma ReclaimCountsStores(w: World, k: nat, claimed: string, entitled: bool, next: Phase, code: string)
    requires k < |w.handlers| && BeforeStore(w.handlers[k].phase) && BeforeStore(next)
    ensures CountsStores(w, ReclaimCall(w, k, claimed, entitled, next), k, code)
  {
  }

  lemma RegisterCountsStores(cfg: Config, w: World, k: nat, registered: string, code: string)
    requires k < |w.handlers| && BeforeStore(w.handlers[k].phase)
    ensures CountsStores(w, RegisterCall(cfg, w, k, registered), k, code)
  {
  }

  lemma CallCountsStores(cfg: Config, w: World, k: nat, spare: string, code: string)
    requires k < |w.handlers|
    ensures CountsStores(w, CallStep(cfg, w, k, spare), k, code)
  {
    var a := w.handlers[k].request;
    var wanted := if a.code.Some? then a.code.value else "";
    match w.handlers[k].phase
    case TryOwner =>
      ReclaimCountsStores(w, k, wanted, a.owner.Some? && SameOwner(w.reg, wanted, a.owner.value), TryAddress, code);
    case TryAddress => ReclaimCountsStores(w, k, wanted, SameIp(w.reg, wanted, a.ip), AskMount, code);
    case RegisterPreferred(_) => RegisterCountsStores(cfg, w, k, wanted, code);
    case RegisterFresh => RegisterCountsStores(cfg, w, k, spare, code);
    case _ =>
  }

  // ---------------------------------------------------------------------------
  // Exactly when a second warning goes out
  // ---------------------------------------------------------------------------

  /** This step of the sweep sends a warning to the agent of registration e. */
  ghost predicate Sends(cfg: Config, w: World, action: Action, e: Registration) {
    && action.SweepCall? && action.ok && w.sweeper.Sweeping? && w.sweeper.left != []
    && var item := w.sweeper.left[0];
       item.of == e && item.conn.Some? && NearExpiry(item.row, w.sweeper.at, cfg.warningWindow)
  }

  /** The books count the warnings that go out, one by one. */
  lemma SentCountsSends(cfg: Config, w: World, now: real, action: Action, e: Registration)
    requires w.clock <= now
    ensures Book(Step(cfg, w, now, action), e).sent == Book(w, e).sent + if Sends(cfg, w, action, e) then 1 else 0
  {
    if !action.SweepCall? && !action.CancelSweep? && !action.Reboot? { ActKeepsSweep(cfg, w.(clock := now), action); }
  }

  /**
   In every run a warning that goes out is a second one for its registration if and only if an earlier send
   was not followed by its mark; and it announces a time within the window.
   */
  lemma SecondWarningExactlyWhen(cfg: Config, start: real, steps: seq<(real, Action)>, now: real, action: Action,
                                 e: Registration)
    requires var w := Run(cfg, Boot(cfg, start), steps); w.clock <= now && Sends(cfg, w, action, e)
    ensures var w := Run(cfg, Boot(cfg, start), steps);
            && (Book(Step(cfg, w, now, action), e).sent >= 2 <==> Book(w, e).lost >= 1)
            && 0.0 < w.sweeper.left[0].row.expiresAt.value - w.sweeper.at <= cfg.warningWindow
  {
    var w := Run(cfg, Boot(cfg, start), steps);
    BootIsSound(cfg, start);
    RunKeepsSound(cfg, Boot(cfg, start), steps);
    SentCountsSends(cfg, w, now, action, e);
    assert BookSound(cfg, w, e) && ItemSound(cfg, w, ItemsLeft(w.sweeper)[0]);
  }

  /** An ONLINE mount near its expiry whose flag is not set is warned (again) by the sweep that starts now. */
  lemma UnmarkedIsWarned(cfg: Config, w: World, code: string, order: seq<string>)
    requires w.sweeper == Asleep && code in w.reg.rows && code in w.reg.connections
    requires NearExpiry(w.reg.rows[code], w.clock, cfg.warningWindow)
    requires IsSnapshotOrder(w.reg, order) && order != [] && order[0] == code
    ensures var e := Registration(code, Epoch(w, code));
            var w' := Act(cfg, Act(cfg, Act(cfg, w, WakeSweep), SweepCall(order, true)), SweepCall([], true));
            Book(w', e).sent == Book(w, e).sent + 1
  {
    var w1 := Act(cfg, w, WakeSweep);
    var w2 := Act(cfg, w1, SweepCall(order, true));
    assert w2.sweeper.left[0] == ItemOf(w1, code);
    assert Sends(cfg, w2, SweepCall([], true), Registration(code, Epoch(w, code)));
    SentCountsSends(cfg, w2, w2.clock, SweepCall([], true), Registration(code, Epoch(w, code)));
    assert w2.(clock := w2.clock) == w2;
  }

  // ---------------------------------------------------------------------------
  // Reconnecting never buys time
  // ---------------------------------------------------------------------------

  /** Within one registration a step keeps the deadline and never reports more time than before. */
  ghost predicate NoTimeBought(w: World, w': World, code: string) {
    && code in w.reg.rows && code in w'.reg.rows
    && w'.reg.rows[code].expiresAt == w.reg.rows[code].expiresAt
    && w'.reg.rows[code].createdAt == w.reg.rows[code].createdAt
    && Known(w', code).reported <= Known(w, code).reported
    && (Known(w', code).reported < Known(w, code).reported ==> 0 <= Known(w', code).reported)
  }

  lemma CallKeepsReported(cfg: Config, w: World, k: nat, spare: string, code: string)
    requires RowsSound(cfg, w) && k < |w.handlers| && code in w.reg.rows && code != cfg.dropboxCode
    requires Epoch(CallStep(cfg, w, k, spare), code) == Epoch(w, code)
    ensures var r, r' := Known(w, code).reported, Known(CallStep(cfg, w, k, spare), code).reported;
            r' <= r && (r' < r ==> 0 <= r')
  {
    assert RowSound(cfg, w.reg.rows[code], w.history[code], w.clock);
  }

  lemma StepKeepsDeadline(cfg: Config, w: World, now: real, action: Action, code: string)
    requires Sound(cfg, w) && code in w.reg.rows && code != cfg.dropboxCode
    requires var w' := Step(cfg, w, now, action); code in w'.reg.rows && Epoch(w', code) == Epoch(w, code)
    ensures NoTimeBought(w, Step(cfg, w, now, action), code)
  {
    if now >= w.clock {
      var v := w.(clock := now);
      TimePasses(cfg, w, now);
      ActKeepsRegistration(cfg, v, action, code);
      if action.Call? {
        if action.handler < |v.handlers| { CallKeepsReported(cfg, v, action.handler, action.spare, code); }
      } else {
        OtherActKeepsHistory(cfg, v, action);
      }
    }
  }

  lemma StepCountsRegistrations(cfg: Config, w: World, now: real, action: Action, code: string)
    requires code != cfg.dropboxCode
    ensures var w' := Step(cfg, w, now, action);
            && Epoch(w, code) <= Epoch(w', code)
            && (code !in w.reg.rows && code in w'.reg.rows ==> Epoch(w, code) < Epoch(w', code))
  {
    if now >= w.clock { ActKeepsRegistration(cfg, w.(clock := now), action, code); }
  }

  lemma {:induction false} RunCountsRegistrations(cfg: Config, w: World, steps: seq<(real, Action)>, code: string)
    requires code != cfg.dropboxCode
    ensures var w' := Run(cfg, w, steps);
            && Epoch(w, code) <= Epoch(w', code)
            && (code !in w.reg.rows && code in w'.reg.rows ==> Epoch(w, code) < Epoch(w', code))
    decreases steps
  {
    if steps != [] {
      StepCountsRegistrations(cfg, w, steps[0].0, steps[0].1, code);
      RunCountsRegistrations(cfg, Step(cfg, w, steps[0].0, steps[0].1), steps[1..], code);
    }
  }

  /**
   Reconnecting never buys time: over any chain of disconnects, reclaims, sweeps and restarts within one
   registration the deadline is the same, and the reported lifetimes never grow and never go below zero.
   */
  lemma {:induction false} ReconnectingNeverBuysTime(cfg: Config, w: World, steps: seq<(real, Action)>, code: string)
    requires Sound(cfg, w) && code in w.reg.rows && code != cfg.dropboxCode
    requires var w' := Run(cfg, w, steps); code in w'.reg.rows && Epoch(w', code) == Epoch(w, code)
    ensures NoTimeBought(w, Run(cfg, w, steps), code)
    decreases steps
  {
    if steps != [] {
      var (now, action) := steps[0];
      var mid := Step(cfg, w, now, action);
      StepKeepsSound(cfg, w, now, action);
      StepCountsRegistrations(cfg, w, now, action, code);
      RunCountsRegistrations(cfg, mid, steps[1..], code);
      StepKeepsDeadline(cfg, w, now, action, code);
      ReconnectingNeverBuysTime(cfg, mid, steps[1..], code);
    }
  }

  // ---------------------------------------------------------------------------
  // Exactly when an expired mount comes back
  // ---------------------------------------------------------------------------

  /** The register call of an admission whose has_mount(code) answered before the present row was inserted. */
  ghost predicate AnsweredBefore(w: World, action: Action, code: string) {
    && action.Call? && action.handler < |w.handlers| && code != ""
    && var h := w.handlers[action.handler];
       h.request.code == Some(code) && h.phase.RegisterPreferred? && h.phase.seen < Epoch(w, code)
  }

  /** An EXPIRED row leaves EXPIRED at exactly those calls. */
  lemma RevivedExactlyWhen(cfg: Config, w: World, now: real, action: Action, code: string)
    requires Sound(cfg, w) && w.clock <= now
    requires code in w.reg.rows && w.reg.rows[code].status == Expired && code != cfg.dropboxCode
    ensures var w' := Step(cfg, w, now, action);
            (code in w'.reg.rows && w'.reg.rows[code].status != Expired) <==> AnsweredBefore(w, action, code)
  {
    var v := w.(clock := now);
    if action.Call? && action.handler < |w.handlers| {
      var h := w.handlers[action.handler];
      assert HandlerSound(cfg, w, h);
      CallRevives(cfg, v, action.handler, action.spare, code);
    } else if action.SweepCall? {
      SweepRevivesNothing(cfg, v, action.order, action.ok, code);
    }
  }

  lemma ReclaimRevivesNothing(w: World, k: nat, claimed: string, entitled: bool, next: Phase, code: string)
    requires k < |w.handlers| && code in w.reg.rows && w.reg.rows[code].status == Expired
    ensures var w' := ReclaimCall(w, k, claimed, entitled, next);
            code in w'.reg.rows && w'.reg.rows[code].status == Expired
  {
  }

  lemma CallRevives(cfg: Config, w: World, k: nat, spare: string, code: string)
    requires k < |w.handlers| && HandlerSound(cfg, w, w.handlers[k])
    requires code in w.reg.rows && w.reg.rows[code].status == Expired
    ensures var w' := CallStep(cfg, w, k, spare);
            code in w'.reg.rows && (w'.reg.rows[code].status != Expired <==> AnsweredBefore(w, Call(k, spare), code))
  {
    var a := w.handlers[k].request;
    match w.handlers[k].phase
    case TryOwner =>
      ReclaimRevivesNothing(w, k, a.code.value, a.owner.Some?
          && SameOwner(w.reg, a.code.value, a.owner.value), TryAddress, code);
    case TryAddress => ReclaimRevivesNothing(w, k, a.code.value, SameIp(w.reg, a.code.value, a.ip), AskMount, code);
    case _ =>
  }

  lemma SweepRevivesNothing(cfg: Config, w: World, order: seq<string>, ok: bool, code: string)
    requires code in w.reg.rows && w.reg.rows[code].status == Expired
    ensures var w' := SweepStep(cfg, w, order, ok); code in w'.reg.rows ==> w'.reg.rows[code].status == Expired
  {
  }

  /** The row of `code` is there in every state of the run, and no step is such a call. */
  ghost predicate Undisturbed(cfg: Config, w: World, steps: seq<(real, Action)>, code: string)
    decreases steps
  {
    code in w.reg.rows &&
    (steps != [] ==>
       !AnsweredBefore(w, steps[0].1, code) && Undisturbed(cfg, Step(cfg, w, steps[0].0, steps[0].1), steps[1..], code))
  }

  /** Over every run an EXPIRED row stays EXPIRED until it is deleted or such a call replaces it. */
  lemma {:induction false} ExpiredUntilDeleted(cfg: Config, w: World, steps: seq<(real, Action)>, code: string)
    requires Sound(cfg, w) && code in w.reg.rows && w.reg.rows[code].status == Expired && code != cfg.dropboxCode
    requires Undisturbed(cfg, w, steps, code)
    ensures var w' := Run(cfg, w, steps); code in w'.reg.rows && w'.reg.rows[code].status == Expired
    decreases steps
  {
    if steps != [] {
      var (now, action) := steps[0];
      StepKeepsSound(cfg, w, now, action);
      if now >= w.clock { RevivedExactlyWhen(cfg, w, now, action, code); }
      ExpiredUntilDeleted(cfg, Step(cfg, w, now, action), steps[1..], code);
    }
  }

  ghost predicate Reachable(cfg: Config, w: World) {
    exists start, steps :: w == Run(cfg, Boot(cfg, start), steps)
  }

  lemma {:induction false} RunSnoc(cfg: Config, w: World, steps: seq<(real, Action)>, last: (real, Action))
    ensures Run(cfg, w, steps + [last]) == Step(cfg, Run(cfg, w, steps), last.0, last.1)
    decreases steps
  {
    if steps == [] {
      assert (steps + [last])[1..] == [];
    } else {
      RunSnoc(cfg, Step(cfg, w, steps[0].0, steps[0].1), steps[1..], last);
      assert (steps + [last])[1..] == steps[1..] + [last];
    }
  }

  /** One more step, taken at the present time. */
  lemma ReachNext(cfg: Config, w: World, action: Action)
    requires Reachable(cfg, w)
    ensures Reachable(cfg, Act(cfg, w, action))
  {
    var start, steps :| w == Run(cfg, Boot(cfg, start), steps);
    RunSnoc(cfg, Boot(cfg, start), steps, (w.clock, action));
    assert w.(clock := w.clock) == w;
  }

  lemma BootIsReachable(cfg: Config, start: real)
    ensures Reachable(cfg, Boot(cfg, start))
  {
    assert Run(cfg, Boot(cfg, start), []) == Boot(cfg, start);
  }
}
