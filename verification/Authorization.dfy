/**
 * The one way to the database: a transaction whose session variables name the actor, with
 * bracketed windows in which the actor type is `system`.
 */
module Authorization {
  import opened Common

  datatype ActorType = NoActor | BrokerType | ClientUserType | PlatformAdminType | SystemType

  /** The three settings the row policies read. */
  datatype Vars = Vars(actorType: ActorType, actorId: Option<Id>, organisation: Option<Id>)

  const UNSET := Vars(NoActor, None, None)

  function TypeOf(ctx: Actor): ActorType {
    match ctx
    case Broker(_) => BrokerType
    case ClientUser(_, _) => ClientUserType
    case PlatformAdmin(_) => PlatformAdminType
    case System => SystemType
  }

  function VarsOf(ctx: Actor): Vars {
    match ctx
    case Broker(id) => Vars(BrokerType, Some(id), None)
    case ClientUser(id, organisation) => Vars(ClientUserType, Some(id), Some(organisation))
    case PlatformAdmin(id) => Vars(PlatformAdminType, Some(id), None)
    case System => Vars(SystemType, None, None)
  }

  /** A statement: the row it writes, if any, and whether the database rejects it. */
  datatype Statement<+R> = Statement(row: Option<R>, rejected: bool)

  /**
   * What a callback does on its client, in order: a statement, a system window around some
   * statements, or an exception of its own. A window may raise at its end; `restores` tells the
   * try/finally form from the plain one, whose restore is skipped on the way out.
   */
  datatype Piece<+R> =
    | Plain(statement: Statement<R>)
    | Window(body: seq<Statement<R>>, raises: bool, restores: bool)
    | Raise

  /**
   * An open transaction: the settings in effect, those the session keeps if it commits, and the
   * rows written so far.
   */
  datatype Tx<+R> = Tx(vars: Vars, session: Vars, aborted: bool, pending: seq<R>)

  /** A connection: its session's settings, and a transaction if one is open. */
  datatype Connection<+R> = Connection(session: Vars, tx: Option<Tx<R>>)

  /** A connection as the pool should hand it out: no transaction, no actor. */
  predicate Clean<R>(c: Connection<R>) {
    c.tx.None? && c.session == UNSET
  }

  /** The settings a statement ran under, and whether it stood inside a window. */
  datatype Ran = Ran(vars: Vars, bracketed: bool)

  datatype Progress<+R> = Progress(tx: Tx<R>, ran: seq<Ran>, ok: bool)

  function RowOf<R>(s: Statement<R>): seq<R> {
    if s.row.Some? then [s.row.value] else []
  }

  /** A rejected statement aborts the transaction, and an aborted transaction rejects every statement. */
  function Attempt<R>(p: Progress<R>, s: Statement<R>, bracketed: bool): Progress<R> {
    var ran := p.ran + [Ran(p.tx.vars, bracketed)];
    if p.tx.aborted || s.rejected then Progress(p.tx.(aborted := true), ran, false)
    else Progress(p.tx.(pending := p.tx.pending + RowOf(s)), ran, true)
  }

  /** Changes the settings: for the transaction only when `isLocal`, else for the session as well. */
  function SetConfig<R>(tx: Tx<R>, vars: Vars, isLocal: bool): Tx<R> {
    if tx.aborted then tx else tx.(vars := vars, session := if isLocal then tx.session else vars)
  }

  /** Every call of the source passes `true`. */
  function SetType<R>(tx: Tx<R>, t: ActorType): Tx<R> {
    SetConfig(tx, tx.vars.(actorType := t), true)
  }

  function RunBody<R>(p: Progress<R>, body: seq<Statement<R>>): Progress<R>
    decreases |body|
  {
    if body == [] || !p.ok then p else RunBody(Attempt(p, body[0], true), body[1..])
  }

  function RunPiece<R>(p: Progress<R>, ctx: Actor, piece: Piece<R>): Progress<R> {
    match piece
    case Raise => p.(ok := false)
    case Plain(s) => Attempt(p, s, false)
    case Window(body, raises, restores) =>
      if p.tx.aborted then p.(ok := false)
      else
        var inside := RunBody(p.(tx := SetType(p.tx, SystemType)), body);
        var ok := inside.ok && !raises;
        inside.(tx := if ok || restores then SetType(inside.tx, TypeOf(ctx)) else inside.tx, ok := ok)
  }

  function RunWork<R>(p: Progress<R>, ctx: Actor, work: seq<Piece<R>>): Progress<R>
    decreases |work|
  {
    if work == [] || !p.ok then p else RunWork(RunPiece(p, ctx, work[0]), ctx, work[1..])
  }

  /** A begin inside an open transaction only warns: what was left open goes on. */
  function Begin<R>(c: Connection<R>): Tx<R> {
    if c.tx.Some? then c.tx.value else Tx(c.session, c.session, false, [])
  }

  /** Begin, then the context's settings, on whatever connection the pool handed out. */
  function Open<R>(c: Connection<R>, ctx: Actor): Progress<R> {
    Progress(SetConfig(Begin(c), VarsOf(ctx), true), [], !Begin(c).aborted)
  }

  function Execute<R>(c: Connection<R>, ctx: Actor, work: seq<Piece<R>>): Progress<R> {
    RunWork(Open(c, ctx), ctx, work)
  }

  /** A commit of an aborted transaction is a rollback, and reports no error. */
  function Commit<R>(committed: seq<R>, tx: Tx<R>): seq<R> {
    if tx.aborted then committed else committed + tx.pending
  }

  function Finish<R>(committed: seq<R>, p: Progress<R>, commits: bool): seq<R> {
    if p.ok && commits then Commit(committed, p.tx) else committed
  }

  /** What goes back to the pool: a commit keeps the session's settings, a rollback restores them. */
  function Release<R>(c: Connection<R>, p: Progress<R>, commits: bool): Connection<R> {
    Connection(if p.ok && commits && !p.tx.aborted then p.tx.session else c.session, None)
  }

  // ---------------------------------------------------------------- one request

  predicate BodySucceeds<R>(body: seq<Statement<R>>) {
    body == [] || (!body[0].rejected && BodySucceeds(body[1..]))
  }

  predicate PieceSucceeds<R>(piece: Piece<R>) {
    match piece
    case Raise => false
    case Plain(s) => !s.rejected
    case Window(body, raises, _) => BodySucceeds(body) && !raises
  }

  predicate Succeeds<R>(work: seq<Piece<R>>) {
    work == [] || (PieceSucceeds(work[0]) && Succeeds(work[1..]))
  }

  function BodyWrites<R>(body: seq<Statement<R>>): seq<R> {
    if body == [] then [] else RowOf(body[0]) + BodyWrites(body[1..])
  }

  function PieceWrites<R>(piece: Piece<R>): seq<R> {
    match piece
    case Raise => []
    case Plain(s) => RowOf(s)
    case Window(body, _, _) => BodyWrites(body)
  }

  /** Every row the callback writes, windows included, in order. */
  function Writes<R>(work: seq<Piece<R>>): seq<R> {
    if work == [] then [] else PieceWrites(work[0]) + Writes(work[1..])
  }

  /** Statements outside windows ran as the caller, those inside with only the actor type changed. */
  predicate RanAs(ran: seq<Ran>, ctx: Actor) {
    forall i | 0 <= i < |ran| ::
      ran[i].vars == if ran[i].bracketed then VarsOf(ctx).(actorType := SystemType) else VarsOf(ctx)
  }

  /** Between pieces: as long as nothing failed, the transaction is sound and back under its caller. */
  predicate Sane<R>(p: Progress<R>, ctx: Actor) {
    RanAs(p.ran, ctx) && (p.ok ==> !p.tx.aborted && p.tx.vars == VarsOf(ctx))
  }

  lemma RanAsAppend(ran: seq<Ran>, e: Ran, ctx: Actor)
    requires RanAs(ran, ctx)
    requires e.vars == if e.bracketed then VarsOf(ctx).(actorType := SystemType) else VarsOf(ctx)
    ensures RanAs(ran + [e], ctx)
  {
  }

  lemma {:induction false} BodyRunsAsSystem<R>(p: Progress<R>, ctx: Actor, body: seq<Statement<R>>)
    requires RanAs(p.ran, ctx) && p.tx.vars == VarsOf(ctx).(actorType := SystemType)
    ensures RanAs(RunBody(p, body).ran, ctx)
    ensures RunBody(p, body).tx.vars == p.tx.vars && RunBody(p, body).tx.session == p.tx.session
    decreases |body|
  {
    if body != [] && p.ok {
      RanAsAppend(p.ran, Ran(p.tx.vars, true), ctx);
      BodyRunsAsSystem(Attempt(p, body[0], true), ctx, body[1..]);
    }
  }

  lemma {:induction false} BodyRuns<R>(p: Progress<R>, body: seq<Statement<R>>)
    requires p.ok && !p.tx.aborted
    ensures var q := RunBody(p, body);
            && (q.ok <==> BodySucceeds(body))
            && (q.ok ==> !q.tx.aborted && q.tx.pending == p.tx.pending + BodyWrites(body))
    decreases |body|
  {
    if body == [] {
      assert p.tx.pending + [] == p.tx.pending;
    } else {
      var q := Attempt(p, body[0], true);
      if q.ok {
        BodyRuns(q, body[1..]);
        Associative(p.tx.pending, RowOf(body[0]), BodyWrites(body[1..]));
      }
    }
  }

  lemma Associative<R>(a: seq<R>, b: seq<R>, c: seq<R>)
    ensures (a + b) + c == a + (b + c)
  {
  }

  lemma PieceRuns<R>(p: Progress<R>, ctx: Actor, piece: Piece<R>)
    requires Sane(p, ctx) && p.ok
    ensures var q := RunPiece(p, ctx, piece);
            && Sane(q, ctx) && q.tx.session == p.tx.session
            && (q.ok <==> PieceSucceeds(piece))
            && (q.ok ==> q.tx.pending == p.tx.pending + PieceWrites(piece))
  {
    match piece {
      case Raise =>
      case Plain(s) => RanAsAppend(p.ran, Ran(p.tx.vars, false), ctx);
      case Window(body, _, _) =>
        BodyRunsAsSystem(p.(tx := SetType(p.tx, SystemType)), ctx, body);
        BodyRuns(p.(tx := SetType(p.tx, SystemType)), body);
        assert TypeOf(ctx) == VarsOf(ctx).actorType;
    }
  }

  lemma {:induction false} WorkRuns<R>(p: Progress<R>, ctx: Actor, work: seq<Piece<R>>)
    requires Sane(p, ctx) && p.ok
    ensures var q := RunWork(p, ctx, work);
            && Sane(q, ctx) && q.tx.session == p.tx.session
            && (q.ok <==> Succeeds(work))
            && (q.ok ==> q.tx.pending == p.tx.pending + Writes(work))
    decreases |work|
  {
    if work == [] {
      assert p.tx.pending + [] == p.tx.pending;
    } else {
      var q := RunPiece(p, ctx, work[0]);
      PieceRuns(p, ctx, work[0]);
      if q.ok {
        WorkRuns(q, ctx, work[1..]);
        Associative(p.tx.pending, PieceWrites(work[0]), Writes(work[1..]));
      }
    }
  }

  /**
   * A request on a connection with no transaction open commits every row its callback wrote, or
   * none: all of them exactly when no statement was rejected, nothing raised and the commit went
   * through. The connection goes back with the settings it came with and no transaction.
   */
  lemma AllOrNothing<R>(committed: seq<R>, c: Connection<R>, ctx: Actor, work: seq<Piece<R>>, commits: bool)
    requires c.tx.None?
    ensures Execute(c, ctx, work).ok <==> Succeeds(work)
    ensures Finish(committed, Execute(c, ctx, work), commits)
         == if Succeeds(work) && commits then committed + Writes(work) else committed
    ensures Release(c, Execute(c, ctx, work), commits) == c
  {
    hide RunWork, Succeeds, Writes;
    WorkRuns(Open(c, ctx), ctx, work);
  }

  /** The statement ran under this caller: their id and organisation, and their type unless in a window. */
  predicate Carries(e: Ran, ctx: Actor) {
    match ctx
    case Broker(id) => e.vars == Vars(if e.bracketed then SystemType else BrokerType, Some(id), None)
    case ClientUser(id, organisation) => e.vars == Vars(if e.bracketed then SystemType else ClientUserType, Some(id), Some(organisation))
    case PlatformAdmin(id) => e.vars == Vars(if e.bracketed then SystemType else PlatformAdminType, Some(id), None)
    case System => e.vars == Vars(SystemType, None, None)
  }

  lemma RanAsCarries(ran: seq<Ran>, ctx: Actor)
    requires RanAs(ran, ctx)
    ensures forall i | 0 <= i < |ran| :: Carries(ran[i], ctx)
  {
  }

  /**
   * Whatever settings its connection came with, every statement of a request runs under the
   * request's own actor, or in a window as system.
   */
  lemma StatementsRunAsTheirActor<R>(c: Connection<R>, ctx: Actor, work: seq<Piece<R>>)
    ensures forall i | 0 <= i < |Execute(c, ctx, work).ran| :: Carries(Execute(c, ctx, work).ran[i], ctx)
  {
    if !Begin(c).aborted {
      WorkRuns(Open(c, ctx), ctx, work);
      RanAsCarries(Execute(c, ctx, work).ran, ctx);
    }
  }

  /** After a rejected statement nothing of the transaction succeeds any more, and nothing more is written. */
  lemma RejectionIsFinal<R>(p: Progress<R>, s: Statement<R>, bracketed: bool, ctx: Actor, later: Piece<R>)
    requires s.rejected
    ensures var q := Attempt(p, s, bracketed);
            !q.ok && !RunPiece(q, ctx, later).ok && RunPiece(q, ctx, later).tx.pending == p.tx.pending
  {
  }

  /**
   * Why the settings are local: settings made for the session would stay on the connection after a
   * commit, for whoever gets it next; local ones end with the transaction, and a rollback takes
   * back either kind.
   */
  lemma OnlySessionSettingsStay<R>(c: Connection<R>, vars: Vars, isLocal: bool, ran: seq<Ran>, commits: bool)
    requires c.tx.None?
    ensures var p := Progress(SetConfig(Begin(c), vars, isLocal), ran, true);
            Release(c, p, commits) == Connection(if commits && !isLocal then vars else c.session, None)
  {
  }

  // ---------------------------------------------------------------- the windows of the source

  function Cons<T>(x: T, rest: seq<T>): seq<T> {
    [x] + rest
  }

  /** A notification: recipient, preference and insert, as system; the actor comes back either way. */
  function CreateNotification<R>(recipientExists: bool, row: R): Piece<R> {
    if recipientExists then
      Window(Cons(Statement(None, false), Cons(Statement(None, false), Cons(Statement(Some(row), false), []))), false, true)
    else Window(Cons(Statement(None, false), []), true, true)
  }

  /** Activation: the row, its audit row, the platform id as system, and the notification. */
  function Activation<R>(activated: R, logged: R, platformId: R, recipientExists: bool, notification: R): seq<Piece<R>> {
    Cons(Plain(Statement(None, false)),
    Cons(Plain(Statement(Some(activated), false)),
    Cons(Plain(Statement(Some(logged), false)),
    Cons(Window(Cons(Statement(Some(platformId), false), []), false, false),
    Cons(Plain(Statement(None, false)),
    Cons(CreateNotification(recipientExists, notification), []))))))
  }

  lemma WorkOfCons<R>(piece: Piece<R>, rest: seq<Piece<R>>)
    ensures Succeeds(Cons(piece, rest)) <==> PieceSucceeds(piece) && Succeeds(rest)
    ensures Writes(Cons(piece, rest)) == PieceWrites(piece) + Writes(rest)
  {
    assert Cons(piece, rest)[1..] == rest;
  }

  lemma NothingLeft<R>()
    ensures var rest: seq<Piece<R>> := []; Succeeds(rest) && Writes(rest) == []
    ensures var body: seq<Statement<R>> := []; BodySucceeds(body) && BodyWrites(body) == []
  {
  }

  lemma BodyOfCons<R>(s: Statement<R>, rest: seq<Statement<R>>)
    ensures BodySucceeds(Cons(s, rest)) <==> !s.rejected && BodySucceeds(rest)
    ensures BodyWrites(Cons(s, rest)) == RowOf(s) + BodyWrites(rest)
  {
    assert Cons(s, rest)[1..] == rest;
  }

  /** A notification succeeds exactly when its recipient exists, and then writes its one row. */
  lemma NotificationPiece<R>(recipientExists: bool, row: R)
    ensures PieceSucceeds(CreateNotification(recipientExists, row)) <==> recipientExists
    ensures recipientExists ==> PieceWrites(CreateNotification(recipientExists, row)) == [row]
  {
    var read: Statement<R> := Statement(None, false);
    var insert: Statement<R> := Statement(Some(row), false);
    BodyOfCons(insert, []);
    BodyOfCons(read, Cons(insert, []));
    BodyOfCons(read, Cons(read, Cons(insert, [])));
  }

  /** Created or not, a notification leaves the transaction sound and back under its caller. */
  lemma NotificationRestoresActor<R>(p: Progress<R>, ctx: Actor, recipientExists: bool, row: R)
    requires Sane(p, ctx) && p.ok
    ensures var q := RunPiece(p, ctx, CreateNotification(recipientExists, row));
            q.ok == recipientExists && !q.tx.aborted && q.tx.vars == p.tx.vars
  {
    NotificationPiece(recipientExists, row);
    PieceRuns(p, ctx, CreateNotification(recipientExists, row));
    if !recipientExists {
      var start := p.(tx := SetType(p.tx, SystemType));
      var read: Statement<R> := Statement(None, false);
      assert CreateNotification(false, row) == Window([read], true, true) && [read][1..] == [];
      assert RunBody(start, [read]) == Attempt(start, read, true);
      assert TypeOf(ctx) == VarsOf(ctx).actorType;
    }
  }

  /** An activation whose notification has no recipient leaves nothing behind, not even its audit row. */
  lemma ActivationIsAtomic<R>(committed: seq<R>, c: Connection<R>, ctx: Actor, activated: R, logged: R, platformId: R,
                              recipientExists: bool, notification: R)
    requires c.tx.None?
    ensures var work := Activation(activated, logged, platformId, recipientExists, notification);
            Finish(committed, Execute(c, ctx, work), true)
            == if recipientExists then committed + [activated, logged, platformId, notification] else committed
  {
    NothingLeft<R>();
    hide RunWork, RunPiece, Cons, Succeeds, Writes, BodySucceeds, BodyWrites;
    var notify := Cons(CreateNotification(recipientExists, notification), []);
    var read: Piece<R> := Plain(Statement(None, false));
    var id: Statement<R> := Statement(Some(platformId), false);
    var window: Piece<R> := Window(Cons(id, []), false, false);
    NotificationPiece(recipientExists, notification);
    WorkOfCons(CreateNotification(recipientExists, notification), []);
    WorkOfCons(read, notify);
    BodyOfCons(id, []);
    WorkOfCons(window, Cons(read, notify));
    WorkOfCons(Plain(Statement(Some(logged), false)), Cons(window, Cons(read, notify)));
    WorkOfCons(Plain(Statement(Some(activated), false)), Cons(Plain(Statement(Some(logged), false)), Cons(window, Cons(read, notify))));
    var rest := Cons(Plain(Statement(Some(activated), false)), Cons(Plain(Statement(Some(logged), false)), Cons(window, Cons(read, notify))));
    WorkOfCons(read, rest);
    AllOrNothing(committed, c, ctx, Cons(read, rest), true);
  }

  // ---------------------------------------------------------------- the pool

  /** A connection in the pool, or one handed to a request: as it came, whose it is, and how far it is. */
  datatype Slot<+R> =
    | Idle(connection: Connection<R>)
    | Serving(connection: Connection<R>, ctx: Actor, progress: Progress<R>)

  /** A statement some request sent, and what it ran under. */
  datatype Sent = Sent(ctx: Actor, ran: Ran)

  datatype Pool<+R> = Pool(committed: seq<R>, slots: seq<Slot<R>>, sent: seq<Sent>)

  /**
   * What has happened on the pool, requests on different connections interleaved piece by piece: a
   * request takes an idle connection, its callback does its next piece, and it ends.
   */
  datatype Schedule<+R> =
    | Opened(size: nat)
    | Take(prev: Schedule<R>, connection: nat, ctx: Actor)
    | Proceed(prev: Schedule<R>, connection: nat, piece: Piece<R>)
    | End(prev: Schedule<R>, connection: nat, commits: bool)

  function Tag(ctx: Actor, ran: seq<Ran>): seq<Sent> {
    seq(|ran|, i requires 0 <= i < |ran| => Sent(ctx, ran[i]))
  }

  /** A callback that has thrown does nothing more. */
  function Continue<R>(p: Progress<R>, ctx: Actor, piece: Piece<R>): (q: Progress<R>)
    ensures |p.ran| <= |q.ran|
  {
    if p.ok then
      PieceRunsOn(p, ctx, piece);
      RunPiece(p, ctx, piece)
    else p
  }

  /** Running on only adds to what ran. */
  lemma {:induction false} BodyRunsOn<R>(p: Progress<R>, body: seq<Statement<R>>)
    ensures p.ran <= RunBody(p, body).ran
    decreases |body|
  {
    if body != [] && p.ok {
      BodyRunsOn(Attempt(p, body[0], true), body[1..]);
    }
  }

  lemma PieceRunsOn<R>(p: Progress<R>, ctx: Actor, piece: Piece<R>)
    ensures p.ran <= RunPiece(p, ctx, piece).ran
  {
    if piece.Window? {
      BodyRunsOn(p.(tx := SetType(p.tx, SystemType)), piece.body);
    }
  }

  function Exec<R>(s: Schedule<R>): Pool<R> {
    match s
    case Opened(size) => Pool([], seq(size, _ => Idle(Connection(UNSET, None))), [])
    case Take(prev, i, ctx) =>
      var pool := Exec(prev);
      if i < |pool.slots| && pool.slots[i].Idle? then
        pool.(slots := pool.slots[i := Serving(pool.slots[i].connection, ctx, Open(pool.slots[i].connection, ctx))])
      else pool
    case Proceed(prev, i, piece) =>
      var pool := Exec(prev);
      if i < |pool.slots| && pool.slots[i].Serving? then
        var p := pool.slots[i].progress;
        var q := Continue(p, pool.slots[i].ctx, piece);
        pool.(slots := pool.slots[i := pool.slots[i].(progress := q)],
              sent := pool.sent + Tag(pool.slots[i].ctx, q.ran[|p.ran|..]))
      else pool
    case End(prev, i, commits) =>
      var pool := Exec(prev);
      if i < |pool.slots| && pool.slots[i].Serving? then
        var p := pool.slots[i].progress;
        pool.(committed := Finish(pool.committed, p, commits),
              slots := pool.slots[i := Idle(Release(pool.slots[i].connection, p, commits))])
      else pool
  }

  /** The pieces of the request connection `i` is serving, in order. */
  function Work<R>(s: Schedule<R>, i: nat): seq<Piece<R>> {
    match s
    case Opened(_) => []
    case Take(prev, j, _) => if j == i && i < |Exec(prev).slots| && Exec(prev).slots[i].Idle? then [] else Work(prev, i)
    case Proceed(prev, j, piece) => if j == i then Work(prev, i) + [piece] else Work(prev, i)
    case End(prev, _, _) => Work(prev, i)
  }

  /** The rows of every request that succeeded, each whole, in the order they ended. */
  function Applied<R>(s: Schedule<R>): seq<R> {
    match s
    case Opened(_) => []
    case Take(prev, _, _) => Applied(prev)
    case Proceed(prev, _, _) => Applied(prev)
    case End(prev, i, commits) =>
      Applied(prev)
      + if i < |Exec(prev).slots| && Exec(prev).slots[i].Serving? && Succeeds(Work(prev, i)) && commits
        then Writes(Work(prev, i)) else []
  }

  lemma {:induction false} WorkAppend<R>(work: seq<Piece<R>>, piece: Piece<R>)
    ensures Succeeds(work + [piece]) <==> Succeeds(work) && PieceSucceeds(piece)
    ensures Writes(work + [piece]) == Writes(work) + PieceWrites(piece)
    decreases |work|
  {
    if work == [] {
      assert work + [piece] == [piece] && [piece][1..] == [];
    } else {
      assert (work + [piece])[1..] == work[1..] + [piece];
      WorkAppend(work[1..], piece);
      Associative(PieceWrites(work[0]), Writes(work[1..]), PieceWrites(piece));
    }
  }

  /** A slot in order: idle and clean, or serving soundly what its request has done so far. */
  ghost predicate InOrder<R>(slot: Slot<R>, work: seq<Piece<R>>) {
    && Clean(slot.connection)
    && (slot.Serving? ==>
          && Sane(slot.progress, slot.ctx)
          && slot.progress.tx.session == UNSET
          && (slot.progress.ok <==> Succeeds(work))
          && (slot.progress.ok ==> slot.progress.tx.pending == Writes(work)))
  }

  lemma ContinueInOrder<R>(slot: Slot<R>, work: seq<Piece<R>>, piece: Piece<R>)
    requires slot.Serving? && InOrder(slot, work)
    ensures InOrder(slot.(progress := Continue(slot.progress, slot.ctx, piece)), work + [piece])
  {
    WorkAppend(work, piece);
    if slot.progress.ok {
      PieceRuns(slot.progress, slot.ctx, piece);
    }
  }

  /** Every connection is in order, whatever the others are doing. */
  lemma {:induction false} SlotsStayInOrder<R>(s: Schedule<R>, i: nat)
    requires i < |Exec(s).slots|
    ensures InOrder(Exec(s).slots[i], Work(s, i))
  {
    match s {
      case Opened(_) =>
      case Take(prev, j, ctx) => SlotsStayInOrder(prev, i);
      case Proceed(prev, j, piece) =>
        SlotsStayInOrder(prev, i);
        if j == i && Exec(prev).slots[i].Serving? {
          ContinueInOrder(Exec(prev).slots[i], Work(prev, i), piece);
        }
      case End(prev, j, commits) => SlotsStayInOrder(prev, i);
    }
  }

  /**
   * However requests interleave on the connections of a pool, the database holds exactly the rows
   * of the requests that succeeded, each whole, in the order they ended; and every connection not
   * in use has no transaction and no actor.
   */
  lemma {:induction false} PoolHoldsWholeRequests<R>(s: Schedule<R>)
    ensures Exec(s).committed == Applied(s)
    ensures forall i | 0 <= i < |Exec(s).slots| && Exec(s).slots[i].Idle? :: Clean(Exec(s).slots[i].connection)
  {
    forall i | 0 <= i < |Exec(s).slots| && Exec(s).slots[i].Idle? ensures Clean(Exec(s).slots[i].connection) {
      SlotsStayInOrder(s, i);
    }
    if !s.Opened? {
      PoolHoldsWholeRequests(s.prev);
      if s.End? && s.connection < |Exec(s.prev).slots| {
        SlotsStayInOrder(s.prev, s.connection);
      }
      assert Applied(s.prev) + [] == Applied(s.prev);
    }
  }

  predicate SentAsTheirActor(sent: seq<Sent>) {
    forall k | 0 <= k < |sent| :: Carries(sent[k].ran, sent[k].ctx)
  }

  /** And every statement any request sent ran under that request's actor, or in a window of it as system. */
  lemma {:induction false} EveryStatementRanAsItsActor<R>(s: Schedule<R>)
    ensures SentAsTheirActor(Exec(s).sent)
  {
    if !s.Opened? {
      EveryStatementRanAsItsActor(s.prev);
      var slots := Exec(s.prev).slots;
      if s.Proceed? && s.connection < |slots| && slots[s.connection].Serving? {
        var slot := slots[s.connection];
        SlotsStayInOrder(s.prev, s.connection);
        ContinueInOrder(slot, Work(s.prev, s.connection), s.piece);
        var q := Continue(slot.progress, slot.ctx, s.piece);
        RanAsCarries(q.ran, slot.ctx);
        assert forall k | |slot.progress.ran| <= k < |q.ran| :: q.ran[|slot.progress.ran|..][k - |slot.progress.ran|] == q.ran[k];
      }
    }
  }

  // ---------------------------------------------------------------- a request nothing interrupts

  function ProceedAll<R>(s: Schedule<R>, i: nat, work: seq<Piece<R>>): Schedule<R> {
    if work == [] then s else Proceed(ProceedAll(s, i, work[..|work| - 1]), i, work[|work| - 1])
  }

  lemma {:induction false} RunWorkSnoc<R>(p: Progress<R>, ctx: Actor, work: seq<Piece<R>>, piece: Piece<R>)
    ensures RunWork(p, ctx, work + [piece]) == Continue(RunWork(p, ctx, work), ctx, piece)
    decreases |work|
  {
    if work == [] {
      assert work + [piece] == [piece] && [piece][1..] == [];
    } else {
      assert (work + [piece])[1..] == work[1..] + [piece];
      if p.ok {
        RunWorkSnoc(RunPiece(p, ctx, work[0]), ctx, work[1..], piece);
      }
    }
  }

  lemma {:induction false} ProceedAllRuns<R>(s: Schedule<R>, i: nat, work: seq<Piece<R>>)
    requires i < |Exec(s).slots| && Exec(s).slots[i].Serving?
    ensures var slot := Exec(s).slots[i];
            && Exec(ProceedAll(s, i, work)).committed == Exec(s).committed
            && Exec(ProceedAll(s, i, work)).slots
               == Exec(s).slots[i := slot.(progress := RunWork(slot.progress, slot.ctx, work))]
  {
    if work != [] {
      var n := |work| - 1;
      var slot := Exec(s).slots[i];
      ProceedAllRuns(s, i, work[..n]);
      RunWorkSnoc(slot.progress, slot.ctx, work[..n], work[n]);
      assert work == work[..n] + [work[n]];
    }
  }

  /** On the pool, a request nothing interrupts does what one call of the client does on that connection. */
  lemma UninterruptedRequest<R>(s: Schedule<R>, i: nat, ctx: Actor, work: seq<Piece<R>>, commits: bool)
    requires i < |Exec(s).slots| && Exec(s).slots[i].Idle?
    ensures var after := Exec(End(ProceedAll(Take(s, i, ctx), i, work), i, commits));
            var c := Exec(s).slots[i].connection;
            && after.committed == Finish(Exec(s).committed, Execute(c, ctx, work), commits)
            && after.slots == Exec(s).slots[i := Idle(Release(c, Execute(c, ctx, work), commits))]
  {
    ProceedAllRuns(Take(s, i, ctx), i, work);
  }

  // ---------------------------------------------------------------- the client

  class Database<R> {
    var committed: seq<R>

    constructor ()
      ensures committed == []
    {
      committed := [];
    }
  }

  class Client<R> {
    var session: Vars
    var tx: Option<Tx<R>>

    constructor ()
      ensures session == UNSET && tx == None
    {
      session, tx := UNSET, None;
    }

    function Contents(): Connection<R>
      reads this
    {
      Connection(session, tx)
    }

    method BeginTransaction()
      modifies this`tx
      ensures tx == Some(Begin(old(Contents())))
    {
      if tx.None? {
        tx := Some(Tx(session, session, false, []));
      }
    }

    /** Settings local to the transaction; an aborted one rejects them like any statement. */
    method SetActor(actorType: ActorType, actorId: Option<Id>, organisation: Option<Id>) returns (ok: bool)
      requires tx.Some?
      modifies this`tx
      ensures ok == !old(tx).value.aborted
      ensures tx == Some(SetConfig(old(tx).value, Vars(actorType, actorId, organisation), true))
    {
      ok := !tx.value.aborted;
      if ok {
        tx := Some(tx.value.(vars := Vars(actorType, actorId, organisation)));
      }
    }

    method Query(s: Statement<R>, bracketed: bool, ghost before: Progress<R>) returns (ghost after: Progress<R>, ok: bool)
      requires tx == Some(before.tx)
      modifies this`tx
      ensures after == Attempt(before, s, bracketed) && tx == Some(after.tx) && ok == after.ok
    {
      var t := tx.value;
      after := Attempt(before, s, bracketed);
      if t.aborted || s.rejected {
        tx := Some(t.(aborted := true));
        return after, false;
      }
      if s.row.Some? {
        tx := Some(t.(pending := t.pending + [s.row.value]));
      }
      assert t.pending + [] == t.pending;
      return after, true;
    }

    method RunWindow(ctx: Actor, piece: Piece<R>, ghost before: Progress<R>) returns (ghost after: Progress<R>, ok: bool)
      requires piece.Window? && tx == Some(before.tx) && before.ok
      modifies this`tx
      ensures after == RunPiece(before, ctx, piece) && tx == Some(after.tx) && ok == after.ok
    {
      var v := tx.value.vars;
      ok := SetActor(SystemType, v.actorId, v.organisation);
      if !ok {
        return before.(ok := false), false;
      }
      ghost var start := before.(tx := SetType(before.tx, SystemType));
      after := start;
      var i := 0;
      while i < |piece.body| && ok
        invariant i <= |piece.body| && tx == Some(after.tx) && ok == after.ok
        invariant RunBody(start, piece.body) == RunBody(after, piece.body[i..])
      {
        assert piece.body[i..][1..] == piece.body[i + 1..];
        after, ok := Query(piece.body[i], true, after);
        i := i + 1;
      }
      ok := ok && !piece.raises;
      if ok || piece.restores {
        v := tx.value.vars;
        var _ := SetActor(TypeOf(ctx), v.actorId, v.organisation);
      }
      after := RunPiece(before, ctx, piece);
    }

    /** Runs the callback in one transaction under the context's settings; throws when it throws. */
    method WithAuthorizationContext(db: Database<R>, ctx: Actor, work: seq<Piece<R>>, commits: bool)
      returns (ok: bool, ghost done: Progress<R>)
      modifies this, db
      ensures done == Execute(old(Contents()), ctx, work)
      ensures ok == (done.ok && commits)
      ensures db.committed == Finish(old(db.committed), done, commits)
      ensures Contents() == Release(old(Contents()), done, commits)
    {
      BeginTransaction();
      var id := if ctx.System? then None else Some(ctx.id);
      var organisation := if ctx.ClientUser? then Some(ctx.organisation) else None;
      ok := SetActor(TypeOf(ctx), id, organisation);
      done := Open(old(Contents()), ctx);
      var i := 0;
      while i < |work| && ok
        modifies this`tx
        invariant i <= |work| && tx == Some(done.tx) && ok == done.ok
        invariant Execute(old(Contents()), ctx, work) == RunWork(done, ctx, work[i..])
      {
        assert work[i..][1..] == work[i + 1..];
        match work[i] {
          case Raise => ok, done := false, done.(ok := false);
          case Plain(s) => done, ok := Query(s, false, done);
          case Window(_, _, _) => done, ok := RunWindow(ctx, work[i], done);
        }
        i := i + 1;
      }
      if ok && commits {
        if !tx.value.aborted {
          db.committed := db.committed + tx.value.pending;
          session := tx.value.session;
        }
      }
      ok := ok && commits;
      tx := None;
    }
  }
}
