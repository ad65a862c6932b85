/** simplesql/connection_manager.go: the reentrant transaction protocol, for callbacks that are any nested program. */
module Transactions {
  import opened Wrappers

  type Err = int

  /** A nil error is the empty list; errors.Join concatenates. */
  datatype Outcome = Returned(errs: seq<Err>) | Panicked(value: int)

  /** A context carries a transaction, named by the position of its begin event, or none. */
  type Ctx = Option<nat>

  /**
   Code that uses a connection manager. Contexts are lexical: 0 is the one most recently received, larger numbers
   those of the enclosing callbacks, and beyond them the background context. Each call says how its outcome is used.
   */
  datatype Prog =
    | Return(errs: seq<Err>)
    | ReturnLast
    | Raise(value: int)
    | Exec(ctx: nat, next: Next)               // cm.DB(ctx).ExecContext(...)
    | Start(ctx: nat, body: Prog, next: Next)  // cm.StartTransaction(ctx, body)
    | Call(ctx: nat, body: Prog, next: Next)   // body(ctx), a plain call

  datatype Next = Next(ok: Prog, fail: Prog, onPanic: OnPanic)

  datatype OnPanic = Propagate | Recover(handler: Prog)

  datatype Event =
    | Begin(id: nat)
    | BeginFailed
    | Enter(id: nat)
    | Leave(id: nat, outcome: Outcome)
    | Commit(id: nat, done: bool)
    | Rollback(id: nat, done: bool)
    | Query(target: Querier, done: bool)

  /** What a statement is sent to: the pool of connections, or one transaction. */
  datatype Querier = Pool | Tx(id: nat)

  function DB(ctx: Ctx): Querier {
    match ctx { case None => Pool case Some(id) => Tx(id) }
  }

  /** The error, if any, of the database operation that becomes event number n. */
  type Faults = nat -> Option<Err>

  type Trace = seq<Event>

  function ErrorList(e: Option<Err>): seq<Err> {
    match e { case None => [] case Some(x) => [x] }
  }

  function Lookup(env: seq<Ctx>, c: nat): Ctx {
    if c < |env| then env[c] else None
  }

  // ---- What a program does ----

  function Run(p: Prog, env: seq<Ctx>, last: seq<Err>, tr: Trace, faults: Faults): (Outcome, Trace)
    decreases p, 0
  {
    match p
    case Return(errs) => (Returned(errs), tr)
    case ReturnLast => (Returned(last), tr)
    case Raise(v) => (Panicked(v), tr)
    case Exec(c, next) =>
      var fault := faults(|tr|);
      Resume(next, env, Returned(ErrorList(fault)), tr + [Query(DB(Lookup(env, c)), fault.None?)], faults)
    case Start(c, body, next) =>
      var (o, tr') := RunStart(Lookup(env, c), body, env, tr, faults);
      Resume(next, env, o, tr', faults)
    case Call(c, body, next) =>
      var (o, tr') := Run(body, [Lookup(env, c)] + env, [], tr, faults);
      Resume(next, env, o, tr', faults)
  }

  function Resume(next: Next, env: seq<Ctx>, o: Outcome, tr: Trace, faults: Faults): (Outcome, Trace)
    decreases next, 0
  {
    match o
    case Returned(errs) =>
      if errs == [] then Run(next.ok, env, [], tr, faults) else Run(next.fail, env, errs, tr, faults)
    case Panicked(v) =>
      match next.onPanic
      case Propagate => (o, tr)
      case Recover(handler) => Run(handler, env, [], tr, faults)
  }

  function RunStart(ctx: Ctx, cb: Prog, env: seq<Ctx>, tr: Trace, faults: Faults): (Outcome, Trace)
    decreases cb, 1
  {
    if ctx.Some? then Run(cb, [ctx] + env, [], tr, faults)
    else if faults(|tr|).Some? then (Returned([faults(|tr|).value]), tr + [BeginFailed])
    else
      var id := |tr|;
      var (o, tr1) := Run(cb, [Some(id)] + env, [], tr + [Begin(id)] + [Enter(id)], faults);
      Finish(id, o, tr1 + [Leave(id, o)], faults)
  }

  /** Ending the transaction that this call opened. */
  function Finish(id: nat, o: Outcome, tr: Trace, faults: Faults): (Outcome, Trace) {
    var fault := faults(|tr|);
    if o == Returned([]) then (Returned(ErrorList(fault)), tr + [Commit(id, fault.None?)])
    else
      (match o { case Panicked(v) => o case Returned(errs) => Returned(errs + ErrorList(fault)) },
       tr + [Rollback(id, fault.None?)])
  }

  class ConnectionManager {
    const faults: Faults
    var trace: Trace

    constructor (faults: Faults)
      ensures this.faults == faults && trace == []
    {
      this.faults := faults;
      trace := [];
    }

    /** One operation of the underlying database, recorded with its success. */
    method Operate(event: bool -> Event) returns (err: Option<Err>)
      modifies this
      ensures err == faults(|old(trace)|) && trace == old(trace) + [event(err.None?)]
    {
      err := faults(|trace|);
      trace := trace + [event(err.None?)];
    }

    method StartTransaction(ctx: Ctx, cb: Prog, env: seq<Ctx>) returns (o: Outcome)
      modifies this
      ensures (o, trace) == RunStart(ctx, cb, env, old(trace), faults)
      decreases cb, 1
    {
      if ctx.Some? {
        o := RunCallback(cb, [ctx] + env, []);
        return;
      }
      var tx := |trace|;
      var err := Operate(done => if done then Begin(tx) else BeginFailed);
      if err.Some? {
        return Returned([err.value]);
      }
      trace := trace + [Enter(tx)];
      o := RunCallback(cb, [Some(tx)] + env, []);
      trace := trace + [Leave(tx, o)];
      if o.Panicked? {
        var ignored := Operate(done => Rollback(tx, done));
        return o;
      }
      if o.errs != [] {
        err := Operate(done => Rollback(tx, done));
        return Returned(o.errs + ErrorList(err));
      }
      err := Operate(done => Commit(tx, done));
      return Returned(ErrorList(err));
    }

    method RunCallback(p: Prog, env: seq<Ctx>, last: seq<Err>) returns (o: Outcome)
      modifies this
      ensures (o, trace) == Run(p, env, last, old(trace), faults)
      decreases p, 0
    {
      match p
      case Return(errs) => return Returned(errs);
      case ReturnLast => return Returned(last);
      case Raise(v) => return Panicked(v);
      case Exec(c, next) =>
        var err := Operate(done => Query(DB(Lookup(env, c)), done));
        o := GoOn(next, env, Returned(ErrorList(err)));
      case Start(c, body, next) =>
        o := StartTransaction(Lookup(env, c), body, env);
        o := GoOn(next, env, o);
      case Call(c, body, next) =>
        o := RunCallback(body, [Lookup(env, c)] + env, []);
        o := GoOn(next, env, o);
    }

    method GoOn(next: Next, env: seq<Ctx>, called: Outcome) returns (o: Outcome)
      modifies this
      ensures (o, trace) == Resume(next, env, called, old(trace), faults)
      decreases next, 0
    {
      match called
      case Returned(errs) =>
        if errs == [] {
          o := RunCallback(next.ok, env, []);
        } else {
          o := RunCallback(next.fail, env, errs);
        }
      case Panicked(v) =>
        match next.onPanic {
          case Propagate => return called;
          case Recover(handler) => o := RunCallback(handler, env, []);
        }
    }
  }

  // ---- What a trace must be, without reference to programs ----

  /** Between begin and callback, inside the callback, and between callback and end. */
  datatype Phase = Opened | Running | Done(outcome: Outcome)

  datatype Stack = Empty | Push(id: nat, phase: Phase, below: Stack)

  predicate Idle(st: Stack) {
    st.Push? ==> st.phase.Running?
  }

  predicate Holds(st: Stack, id: nat) {
    st.Push? && (st.id == id || Holds(st.below, id))
  }

  /** Event number n after a trace that leaves st open; None if the protocol forbids it. */
  function Watch(e: Event, n: nat, st: Stack): Option<Stack> {
    match e
    case Begin(id) => if Idle(st) && id == n then Some(Push(id, Opened, st)) else None
    case BeginFailed => if Idle(st) then Some(st) else None
    case Enter(id) => if st.Push? && st.id == id && st.phase.Opened? then Some(st.(phase := Running)) else None
    case Leave(id, o) => if st.Push? && st.id == id && st.phase.Running? then Some(st.(phase := Done(o))) else None
    case Commit(id, _) => if st.Push? && st.id == id && st.phase == Done(Returned([])) then Some(st.below) else None
    case Rollback(id, _) =>
      if st.Push? && st.id == id && st.phase.Done? && st.phase.outcome != Returned([]) then Some(st.below) else None
    case Query(target, _) => if Idle(st) && (target.Tx? ==> Holds(st, target.id)) then Some(st) else None
  }

  function Monitor(tr: Trace): Option<Stack> {
    if tr == [] then Some(Empty)
    else
      match Monitor(tr[..|tr| - 1])
      case None => None
      case Some(st) => Watch(tr[|tr| - 1], |tr| - 1, st)
  }

  lemma MonitorSnoc(tr: Trace, e: Event, st: Stack)
    requires Monitor(tr) == Some(st)
    ensures Monitor(tr + [e]) == Watch(e, |tr|, st)
  {
    assert (tr + [e])[..|tr|] == tr;
  }

  /** Every context in scope belongs to a transaction still open. */
  ghost predicate InScope(env: seq<Ctx>, st: Stack) {
    forall i | 0 <= i < |env| && env[i].Some? :: Holds(st, env[i].value)
  }

  /**
   The protocol, for every program and every pattern of failures: started with some transactions open and control
   inside the innermost one's callback, a program breaks no rule and leaves exactly the same transactions open.
   */
  lemma {:induction false} RunKeepsProtocol(p: Prog, env: seq<Ctx>, last: seq<Err>,
                                            tr: Trace, faults: Faults, st: Stack)
    requires Monitor(tr) == Some(st) && Idle(st) && InScope(env, st)
    ensures Monitor(Run(p, env, last, tr, faults).1) == Some(st)
    decreases p, 0
  {
    match p
    case Return(_) =>
    case ReturnLast =>
    case Raise(_) =>
    case Exec(c, next) =>
      var e := Query(DB(Lookup(env, c)), faults(|tr|).None?);
      MonitorSnoc(tr, e, st);
      ResumeKeepsProtocol(next, env, Returned(ErrorList(faults(|tr|))), tr + [e], faults, st);
    case Start(c, body, next) =>
      var (o, tr') := RunStart(Lookup(env, c), body, env, tr, faults);
      StartKeepsProtocol(Lookup(env, c), body, env, tr, faults, st);
      ResumeKeepsProtocol(next, env, o, tr', faults, st);
    case Call(c, body, next) =>
      var (o, tr') := Run(body, [Lookup(env, c)] + env, [], tr, faults);
      RunKeepsProtocol(body, [Lookup(env, c)] + env, [], tr, faults, st);
      ResumeKeepsProtocol(next, env, o, tr', faults, st);
  }

  lemma {:induction false} ResumeKeepsProtocol(next: Next, env: seq<Ctx>, o: Outcome,
                                               tr: Trace, faults: Faults, st: Stack)
    requires Monitor(tr) == Some(st) && Idle(st) && InScope(env, st)
    ensures Monitor(Resume(next, env, o, tr, faults).1) == Some(st)
    decreases next, 0
  {
    match o
    case Returned(errs) =>
      RunKeepsProtocol(next.ok, env, [], tr, faults, st);
      RunKeepsProtocol(next.fail, env, errs, tr, faults, st);
    case Panicked(_) =>
      if next.onPanic.Recover? {
        RunKeepsProtocol(next.onPanic.handler, env, [], tr, faults, st);
      }
  }

  lemma {:induction false} StartKeepsProtocol(ctx: Ctx, cb: Prog, env: seq<Ctx>, tr: Trace, faults: Faults, st: Stack)
    requires Monitor(tr) == Some(st) && Idle(st) && InScope(env, st) && (ctx.Some? ==> Holds(st, ctx.value))
    ensures Monitor(RunStart(ctx, cb, env, tr, faults).1) == Some(st)
    decreases cb, 1
  {
    if ctx.Some? {
      RunKeepsProtocol(cb, [ctx] + env, [], tr, faults, st);
    } else if faults(|tr|).Some? {
      MonitorSnoc(tr, BeginFailed, st);
    } else {
      var id := |tr|;
      BeginWatched(tr, st);
      var inside := Push(id, Running, st);
      RunKeepsProtocol(cb, [Some(id)] + env, [], tr + [Begin(id)] + [Enter(id)], faults, inside);
      var (o, tr1) := Run(cb, [Some(id)] + env, [], tr + [Begin(id)] + [Enter(id)], faults);
      FinishWatched(id, o, tr1, faults, st);
    }
  }

  lemma BeginWatched(tr: Trace, st: Stack)
    requires Monitor(tr) == Some(st) && Idle(st)
    ensures Monitor(tr + [Begin(|tr|)] + [Enter(|tr|)]) == Some(Push(|tr|, Running, st))
  {
    MonitorSnoc(tr, Begin(|tr|), st);
    MonitorSnoc(tr + [Begin(|tr|)], Enter(|tr|), Push(|tr|, Opened, st));
  }

  lemma FinishWatched(id: nat, o: Outcome, tr: Trace, faults: Faults, st: Stack)
    requires Monitor(tr) == Some(Push(id, Running, st))
    ensures Monitor(Finish(id, o, tr + [Leave(id, o)], faults).1) == Some(st)
  {
    MonitorSnoc(tr, Leave(id, o), Push(id, Running, st));
    var tr' := tr + [Leave(id, o)];
    MonitorSnoc(tr', Commit(id, faults(|tr'|).None?), Push(id, Done(o), st));
    MonitorSnoc(tr', Rollback(id, faults(|tr'|).None?), Push(id, Done(o), st));
  }

  /** A whole program leaves no transaction open. */
  lemma ProgramKeepsProtocol(p: Prog, faults: Faults)
    ensures Monitor(Run(p, [], [], [], faults).1) == Some(Empty)
  {
    RunKeepsProtocol(p, [], [], [], faults, Empty);
  }

  // ---- What the rules give ----

  predicate Ends(e: Event, id: nat) {
    (e.Commit? || e.Rollback?) && e.id == id
  }

  function CountEnds(tr: Trace, id: nat): nat {
    if tr == [] then 0 else CountEnds(tr[..|tr| - 1], id) + (if Ends(tr[|tr| - 1], id) then 1 else 0)
  }

  function CountBegins(tr: Trace, id: nat): nat {
    if tr == [] then 0 else CountBegins(tr[..|tr| - 1], id) + (if tr[|tr| - 1] == Begin(id) then 1 else 0)
  }

  /** Ids grow from the bottom of the stack up, and lie in the trace. */
  predicate Increasing(st: Stack, bound: nat) {
    st.Push? ==> st.id < bound && Increasing(st.below, st.id)
  }

  lemma {:induction false} IncreasingHolds(st: Stack, bound: nat, id: nat)
    requires Increasing(st, bound) && Holds(st, id)
    ensures id < bound
    decreases st
  {
    if st.id != id {
      IncreasingHolds(st.below, st.id, id);
    }
  }

  /** At every moment each transaction has begun at most once and ended at most once; it is open exactly between. */
  lemma {:induction false} EndedOnce(tr: Trace, id: nat)
    requires Monitor(tr).Some?
    ensures Increasing(Monitor(tr).value, |tr|)
    ensures CountBegins(tr, id) == CountEnds(tr, id) + (if Holds(Monitor(tr).value, id) then 1 else 0)
    ensures CountBegins(tr, id) <= (if id < |tr| then 1 else 0)
    decreases |tr|
  {
    if tr != [] {
      var before, e := tr[..|tr| - 1], tr[|tr| - 1];
      var st := Monitor(before).value;
      EndedOnce(before, id);
      if Holds(st, id) {
        IncreasingHolds(st, |before|, id);
      }
      if st.Push? && Holds(st.below, id) {
        IncreasingHolds(st.below, st.id, id);
      }
    }
  }

  lemma {:induction false} PrefixMonitored(tr: Trace, n: nat)
    requires Monitor(tr).Some? && n <= |tr|
    ensures Monitor(tr[..n]).Some?
    decreases |tr|
  {
    if n < |tr| {
      PrefixMonitored(tr[..|tr| - 1], n);
      assert tr[..|tr| - 1][..n] == tr[..n];
    } else {
      assert tr[..n] == tr;
    }
  }

  /** What the top of the stack says about the last event. */
  lemma LastEvent(tr: Trace)
    requires Monitor(tr).Some?
    ensures var st := Monitor(tr).value;
            st.Push? ==>
              && (st.phase.Opened? ==> tr != [] && tr[|tr| - 1] == Begin(st.id))
              && (st.phase.Done? ==> tr != [] && tr[|tr| - 1] == Leave(st.id, st.phase.outcome))
    ensures tr != [] && tr[|tr| - 1].Begin? ==> Monitor(tr).value.Push? && Monitor(tr).value.phase.Opened?
    ensures tr != [] && tr[|tr| - 1].Leave? ==> Monitor(tr).value.Push? && Monitor(tr).value.phase.Done?
    ensures Monitor(tr).value.Push? ==> Beneath(Monitor(tr).value.below)
  {
    if tr != [] {
      LastEvent(tr[..|tr| - 1]);
    }
  }

  /** Under the innermost transaction every other is inside its callback. */
  predicate Beneath(st: Stack) {
    st.Push? ==> st.phase.Running? && Beneath(st.below)
  }

  /**
   Reading the rules off a trace, in both directions: a commit comes right after its callback returned nil, a rollback
   right after its callback returned an error or panicked, and a callback starts right after its begin; after a
   callback has returned nil its commit comes next, after any other end its rollback, and after a begin its callback;
   and an operation on a transaction finds it begun and not ended.
   */
  lemma EventsJustified(tr: Trace, n: nat)
    requires Monitor(tr).Some? && n < |tr|
    ensures tr[n].Commit? ==> n > 0 && tr[n - 1] == Leave(tr[n].id, Returned([]))
    ensures tr[n].Rollback? ==>
              n > 0 && tr[n - 1].Leave? && tr[n - 1].id == tr[n].id && tr[n - 1].outcome != Returned([])
    ensures tr[n].Enter? ==> n > 0 && tr[n - 1] == Begin(tr[n].id)
    ensures n > 0 && tr[n - 1].Leave? ==>
              if tr[n - 1].outcome == Returned([]) then tr[n].Commit? && tr[n].id == tr[n - 1].id
              else tr[n].Rollback? && tr[n].id == tr[n - 1].id
    ensures n > 0 && tr[n - 1].Begin? ==> tr[n] == Enter(tr[n - 1].id)
    ensures tr[n].Query? && tr[n].target.Tx? ==>
              CountBegins(tr[..n], tr[n].target.id) == 1 && CountEnds(tr[..n], tr[n].target.id) == 0
  {
    PrefixMonitored(tr, n);
    PrefixMonitored(tr, n + 1);
    var before := tr[..n];
    assert tr[..n + 1] == before + [tr[n]];
    MonitorSnoc(before, tr[n], Monitor(before).value);
    LastEvent(before);
    if tr[n].Query? && tr[n].target.Tx? {
      EndedOnce(before, tr[n].target.id);
    }
  }

  lemma {:induction false} CountBeginsAt(tr: Trace, n: nat)
    requires Monitor(tr).Some? && n < |tr| && tr[n].Begin?
    ensures tr[n].id == n && CountBegins(tr, n) >= 1
    decreases |tr|
  {
    if n < |tr| - 1 {
      CountBeginsAt(tr[..|tr| - 1], n);
    }
  }

  /** In a whole program's trace every begin has its one commit or rollback. */
  lemma EveryBeginEnds(p: Prog, faults: Faults, n: nat)
    requires var tr := Run(p, [], [], [], faults).1; n < |tr| && tr[n].Begin?
    ensures var tr := Run(p, [], [], [], faults).1; tr[n].id == n && CountBegins(tr, n) == 1 && CountEnds(tr, n) == 1
  {
    ProgramKeepsProtocol(p, faults);
    var tr := Run(p, [], [], [], faults).1;
    CountBeginsAt(tr, n);
    EndedOnce(tr, n);
  }

  // ---- Reentrancy is flattening ----

  function Carries(carries: seq<bool>, c: nat): bool {
    c < |carries| && carries[c]
  }

  /** The program with every StartTransaction on a context that carries a transaction replaced by a plain call. */
  function Inline(p: Prog, carries: seq<bool>): Prog
    decreases p, 0
  {
    match p
    case Return(_) => p
    case ReturnLast => p
    case Raise(_) => p
    case Exec(c, next) => Exec(c, InlineNext(next, carries))
    case Start(c, body, next) =>
      var inner := Inline(body, [true] + carries);
      if Carries(carries, c) then Call(c, inner, InlineNext(next, carries))
      else Start(c, inner, InlineNext(next, carries))
    case Call(c, body, next) =>
      Call(c, Inline(body, [Carries(carries, c)] + carries), InlineNext(next, carries))
  }

  function InlineNext(next: Next, carries: seq<bool>): Next
    decreases next, 0
  {
    Next(Inline(next.ok, carries), Inline(next.fail, carries),
         match next.onPanic { case Propagate => Propagate case Recover(h) => Recover(Inline(h, carries)) })
  }

  /** No StartTransaction is left that would find a transaction in its context. */
  predicate Flat(p: Prog, carries: seq<bool>)
    decreases p, 0
  {
    match p
    case Return(_) => true
    case ReturnLast => true
    case Raise(_) => true
    case Exec(_, next) => FlatNext(next, carries)
    case Start(c, body, next) => !Carries(carries, c) && Flat(body, [true] + carries) && FlatNext(next, carries)
    case Call(c, body, next) => Flat(body, [Carries(carries, c)] + carries) && FlatNext(next, carries)
  }

  predicate FlatNext(next: Next, carries: seq<bool>)
    decreases next, 0
  {
    && Flat(next.ok, carries) && Flat(next.fail, carries)
    && (next.onPanic.Recover? ==> Flat(next.onPanic.handler, carries))
  }

  lemma {:induction false} InlineFlat(p: Prog, carries: seq<bool>)
    ensures Flat(Inline(p, carries), carries)
    decreases p, 0
  {
    match p
    case Return(_) =>
    case ReturnLast =>
    case Raise(_) =>
    case Exec(_, next) => InlineNextFlat(next, carries);
    case Start(c, body, next) =>
      InlineFlat(body, [true] + carries);
      InlineNextFlat(next, carries);
    case Call(c, body, next) =>
      InlineFlat(body, [Carries(carries, c)] + carries);
      InlineNextFlat(next, carries);
  }

  lemma {:induction false} InlineNextFlat(next: Next, carries: seq<bool>)
    ensures FlatNext(InlineNext(next, carries), carries)
    decreases next, 0
  {
    InlineFlat(next.ok, carries);
    InlineFlat(next.fail, carries);
    if next.onPanic.Recover? {
      InlineFlat(next.onPanic.handler, carries);
    }
  }

  ghost predicate Matches(env: seq<Ctx>, carries: seq<bool>) {
    |env| == |carries| && forall i | 0 <= i < |env| :: env[i].Some? == carries[i]
  }

  /** Inlining changes nothing: the same outcome, errors and panic values included, and the same trace. */
  lemma {:induction false} InlineSame(p: Prog, carries: seq<bool>, env: seq<Ctx>, last: seq<Err>,
                                      tr: Trace, faults: Faults)
    requires Matches(env, carries)
    ensures Run(Inline(p, carries), env, last, tr, faults) == Run(p, env, last, tr, faults)
    decreases p, 0
  {
    match p
    case Return(_) =>
    case ReturnLast =>
    case Raise(_) =>
    case Exec(c, next) =>
      InlineNextSame(next, carries, env, Returned(ErrorList(faults(|tr|))),
                     tr + [Query(DB(Lookup(env, c)), faults(|tr|).None?)], faults);
    case Start(c, body, next) =>
      var (o, tr') := RunStart(Lookup(env, c), body, env, tr, faults);
      InlineStartSame(Lookup(env, c), body, carries, env, tr, faults);
      InlineNextSame(next, carries, env, o, tr', faults);
    case Call(c, body, next) =>
      var (o, tr') := Run(body, [Lookup(env, c)] + env, [], tr, faults);
      InlineSame(body, [Carries(carries, c)] + carries, [Lookup(env, c)] + env, [], tr, faults);
      InlineNextSame(next, carries, env, o, tr', faults);
  }

  lemma {:induction false} InlineStartSame(ctx: Ctx, cb: Prog, carries: seq<bool>, env: seq<Ctx>,
                                           tr: Trace, faults: Faults)
    requires Matches(env, carries)
    ensures RunStart(ctx, Inline(cb, [true] + carries), env, tr, faults) == RunStart(ctx, cb, env, tr, faults)
    decreases cb, 1
  {
    if ctx.Some? {
      InlineSame(cb, [true] + carries, [ctx] + env, [], tr, faults);
    } else {
      InlineSame(cb, [true] + carries, [Some(|tr|)] + env, [], tr + [Begin(|tr|)] + [Enter(|tr|)], faults);
    }
  }

  lemma {:induction false} InlineNextSame(next: Next, carries: seq<bool>, env: seq<Ctx>, o: Outcome,
                                          tr: Trace, faults: Faults)
    requires Matches(env, carries)
    ensures Resume(InlineNext(next, carries), env, o, tr, faults) == Resume(next, env, o, tr, faults)
    decreases next, 0
  {
    match o
    case Returned(errs) =>
      InlineSame(next.ok, carries, env, [], tr, faults);
      InlineSame(next.fail, carries, env, errs, tr, faults);
    case Panicked(_) =>
      if next.onPanic.Recover? {
        InlineSame(next.onPanic.handler, carries, env, [], tr, faults);
      }
  }

  /** For whole programs: the inlined program opens transactions only where there is none, and behaves the same. */
  lemma ReentrancyIsFlattening(p: Prog, faults: Faults)
    ensures Flat(Inline(p, []), [])
    ensures Run(Inline(p, []), [], [], [], faults) == Run(p, [], [], [], faults)
  {
    InlineFlat(p, []);
    InlineSame(p, [], [], [], [], faults);
  }

  // ---- A call that opens its own transaction ----

  lemma {:induction false} RunExtends(p: Prog, env: seq<Ctx>, last: seq<Err>, tr: Trace, faults: Faults)
    ensures tr <= Run(p, env, last, tr, faults).1
    decreases p, 0
  {
    match p
    case Return(_) =>
    case ReturnLast =>
    case Raise(_) =>
    case Exec(c, next) =>
      ResumeExtends(next, env, Returned(ErrorList(faults(|tr|))),
                    tr + [Query(DB(Lookup(env, c)), faults(|tr|).None?)], faults);
    case Start(c, body, next) =>
      var (o, tr') := RunStart(Lookup(env, c), body, env, tr, faults);
      StartExtends(Lookup(env, c), body, env, tr, faults);
      ResumeExtends(next, env, o, tr', faults);
    case Call(c, body, next) =>
      var (o, tr') := Run(body, [Lookup(env, c)] + env, [], tr, faults);
      RunExtends(body, [Lookup(env, c)] + env, [], tr, faults);
      ResumeExtends(next, env, o, tr', faults);
  }

  lemma {:induction false} StartExtends(ctx: Ctx, cb: Prog, env: seq<Ctx>, tr: Trace, faults: Faults)
    ensures tr <= RunStart(ctx, cb, env, tr, faults).1
    ensures ctx.None? && faults(|tr|).None? ==>
              tr + [Begin(|tr|)] + [Enter(|tr|)] <= RunStart(ctx, cb, env, tr, faults).1
    decreases cb, 1
  {
    if ctx.Some? {
      RunExtends(cb, [ctx] + env, [], tr, faults);
    } else if faults(|tr|).None? {
      RunExtends(cb, [Some(|tr|)] + env, [], tr + [Begin(|tr|)] + [Enter(|tr|)], faults);
    }
  }

  lemma {:induction false} ResumeExtends(next: Next, env: seq<Ctx>, o: Outcome, tr: Trace, faults: Faults)
    ensures tr <= Resume(next, env, o, tr, faults).1
    decreases next, 0
  {
    match o
    case Returned(errs) =>
      RunExtends(next.ok, env, [], tr, faults);
      RunExtends(next.fail, env, errs, tr, faults);
    case Panicked(_) =>
      if next.onPanic.Recover? {
        RunExtends(next.onPanic.handler, env, [], tr, faults);
      }
  }

  /** The last two events of a call that owns id, and what the call returns. */
  ghost predicate EndsProperly(id: nat, o: Outcome, tr: Trace, faults: Faults) {
    var n := |tr| - 1;
    && n > id + 1
    && tr[n - 1].Leave? && tr[n - 1].id == id
    && match tr[n - 1].outcome
       case Panicked(v) => o == Panicked(v) && tr[n] == Rollback(id, faults(n).None?)
       case Returned(errs) =>
         && o == Returned(if faults(n).Some? then errs + [faults(n).value] else errs)
         && tr[n] == if errs == [] then Commit(id, faults(n).None?) else Rollback(id, faults(n).None?)
  }

  lemma FinishEndsProperly(id: nat, o: Outcome, tr: Trace, faults: Faults)
    requires |tr| > id + 1
    ensures var (o', tr') := Finish(id, o, tr + [Leave(id, o)], faults);
            tr <= tr' && EndsProperly(id, o', tr', faults)
  {
    if o.Returned? {
      assert o.errs + [] == o.errs;
      assert o.errs == [] ==> o.errs + ErrorList(faults(|tr| + 1)) == ErrorList(faults(|tr| + 1));
    }
  }

  /**
   A call on a context without a transaction begins its own, whatever else is open, and its last event ends that
   one. A panic value comes out as it went in; an error comes out first, with a rollback error after it; nil becomes
   the commit's error; and when the begin fails nothing else happens.
   */
  lemma OwnTransaction(cb: Prog, env: seq<Ctx>, tr: Trace, faults: Faults)
    ensures var (o, tr') := RunStart(None, cb, env, tr, faults);
            match faults(|tr|)
            case Some(e) => o == Returned([e]) && tr' == tr + [BeginFailed]
            case None => tr + [Begin(|tr|)] + [Enter(|tr|)] <= tr' && EndsProperly(|tr|, o, tr', faults)
  {
    if faults(|tr|).None? {
      var begun := tr + [Begin(|tr|)] + [Enter(|tr|)];
      RunExtends(cb, [Some(|tr|)] + env, [], begun, faults);
      var (o, tr1) := Run(cb, [Some(|tr|)] + env, [], begun, faults);
      FinishEndsProperly(|tr|, o, tr1, faults);
    }
  }

  // ---- Where statements go ----

  /**
   A statement goes to the transaction that its context carries, and to the pool if it carries none. The program goes on
   in its first continuation if the statement succeeds and with its error in the second if it fails.
   */
  lemma StatementRouted(c: nat, next: Next, env: seq<Ctx>, last: seq<Err>, tr: Trace, faults: Faults)
    ensures var (o, tr') := Run(Exec(c, next), env, last, tr, faults);
            var target := if c < |env| && env[c].Some? then Tx(env[c].value) else Pool;
            && tr <= tr' && |tr| < |tr'| && tr'[|tr|] == Query(target, faults(|tr|).None?)
            && (o, tr') ==
               if faults(|tr|).None? then Run(next.ok, env, [], tr + [Query(target, true)], faults)
               else Run(next.fail, env, [faults(|tr|).value], tr + [Query(target, false)], faults)
  {
    var e := Query(DB(Lookup(env, c)), faults(|tr|).None?);
    ResumeExtends(next, env, Returned(ErrorList(faults(|tr|))), tr + [e], faults);
  }

  /** A panic is handed on, value and all, until it is recovered. */
  lemma PanicHandedOn(c: nat, v: int, next: Next, env: seq<Ctx>, last: seq<Err>, tr: Trace, faults: Faults)
    ensures Run(Call(c, Raise(v), next), env, last, tr, faults) ==
            if next.onPanic.Recover? then Run(next.onPanic.handler, env, [], tr, faults) else (Panicked(v), tr)
  {
  }

  /** The events of the statements that p makes on context c, in whatever continuation; not those of inner callbacks. */
  ghost function SentOn(c: nat, p: Prog, env: seq<Ctx>, last: seq<Err>, tr: Trace, faults: Faults): set<nat>
    decreases p, 0
  {
    match p
    case Return(_) => {}
    case ReturnLast => {}
    case Raise(_) => {}
    case Exec(on, next) =>
      var e := Query(DB(Lookup(env, on)), faults(|tr|).None?);
      (if on == c then {|tr|} else {})
      + SentOnNext(c, next, env, Returned(ErrorList(faults(|tr|))), tr + [e], faults)
    case Start(on, body, next) =>
      var (o, tr') := RunStart(Lookup(env, on), body, env, tr, faults);
      SentOnNext(c, next, env, o, tr', faults)
    case Call(on, body, next) =>
      var (o, tr') := Run(body, [Lookup(env, on)] + env, [], tr, faults);
      SentOnNext(c, next, env, o, tr', faults)
  }

  ghost function SentOnNext(c: nat, next: Next, env: seq<Ctx>, o: Outcome, tr: Trace, faults: Faults): set<nat>
    decreases next, 0
  {
    match o
    case Returned(errs) =>
      if errs == [] then SentOn(c, next.ok, env, [], tr, faults) else SentOn(c, next.fail, env, errs, tr, faults)
    case Panicked(_) =>
      if next.onPanic.Recover? then SentOn(c, next.onPanic.handler, env, [], tr, faults) else {}
  }

  /** All statements that a program makes on a context go to the transaction it carries, or all to the pool. */
  lemma {:induction false} SentTo(c: nat, p: Prog, env: seq<Ctx>, last: seq<Err>, tr: Trace, faults: Faults, n: nat)
    requires n in SentOn(c, p, env, last, tr, faults)
    ensures var tr' := Run(p, env, last, tr, faults).1;
            && |tr| <= n < |tr'| && tr'[n].Query?
            && tr'[n].target == if c < |env| && env[c].Some? then Tx(env[c].value) else Pool
    decreases p, 0
  {
    match p
    case Return(_) =>
    case ReturnLast =>
    case Raise(_) =>
    case Exec(on, next) =>
      StatementRouted(on, next, env, last, tr, faults);
      var e := Query(DB(Lookup(env, on)), faults(|tr|).None?);
      if n != |tr| || on != c {
        SentToNext(c, next, env, Returned(ErrorList(faults(|tr|))), tr + [e], faults, n);
      }
    case Start(on, body, next) =>
      var (o, tr') := RunStart(Lookup(env, on), body, env, tr, faults);
      StartExtends(Lookup(env, on), body, env, tr, faults);
      SentToNext(c, next, env, o, tr', faults, n);
    case Call(on, body, next) =>
      var (o, tr') := Run(body, [Lookup(env, on)] + env, [], tr, faults);
      RunExtends(body, [Lookup(env, on)] + env, [], tr, faults);
      SentToNext(c, next, env, o, tr', faults, n);
  }

  lemma {:induction false} SentToNext(c: nat, next: Next, env: seq<Ctx>, o: Outcome,
                                      tr: Trace, faults: Faults, n: nat)
    requires n in SentOnNext(c, next, env, o, tr, faults)
    ensures var tr' := Resume(next, env, o, tr, faults).1;
            && |tr| <= n < |tr'| && tr'[n].Query?
            && tr'[n].target == if c < |env| && env[c].Some? then Tx(env[c].value) else Pool
    decreases next, 0
  {
    match o
    case Returned(errs) =>
      if errs == [] {
        SentTo(c, next.ok, env, [], tr, faults, n);
      } else {
        SentTo(c, next.fail, env, errs, tr, faults, n);
      }
    case Panicked(_) =>
      SentTo(c, next.onPanic.handler, env, [], tr, faults, n);
  }

  /**
   So every statement that a callback makes on its own context goes to the transaction that its StartTransaction call
   joined, or to the one which that call has just begun; whatever else the program and its callbacks do.
   */
  lemma CallbackRouted(ctx: Ctx, cb: Prog, env: seq<Ctx>, tr: Trace, faults: Faults, n: nat)
    requires ctx.None? ==> faults(|tr|).None?
    requires ctx.Some? ==> n in SentOn(0, cb, [ctx] + env, [], tr, faults)
    requires ctx.None? ==>
               n in SentOn(0, cb, [Some(|tr|)] + env, [], tr + [Begin(|tr|)] + [Enter(|tr|)], faults)
    ensures var tr' := RunStart(ctx, cb, env, tr, faults).1;
            && n < |tr'| && tr'[n].Query?
            && match ctx
               case Some(id) => tr'[n].target == Tx(id)
               case None => tr'[n].target == Tx(|tr|) && |tr| < n && tr'[|tr|] == Begin(|tr|)
  {
    StartExtends(ctx, cb, env, tr, faults);
    if ctx.Some? {
      SentTo(0, cb, [ctx] + env, [], tr, faults, n);
    } else {
      SentTo(0, cb, [Some(|tr|)] + env, [], tr + [Begin(|tr|)] + [Enter(|tr|)], faults, n);
    }
  }

  // ---- Programs whose callbacks keep to their own contexts ----

  /**
   Every callback uses its own context only, except that it may start transactions on the background context, which is
   any beyond the depth of enclosing callbacks.
   */
  predicate Own(p: Prog, depth: nat)
    decreases p, 0
  {
    match p
    case Return(_) => true
    case ReturnLast => true
    case Raise(_) => true
    case Exec(c, next) => c == 0 && OwnNext(next, depth)
    case Start(c, body, next) => (c == 0 || c >= depth) && Own(body, depth + 1) && OwnNext(next, depth)
    case Call(c, body, next) => c == 0 && Own(body, depth + 1) && OwnNext(next, depth)
  }

  predicate OwnNext(next: Next, depth: nat)
    decreases next, 0
  {
    && Own(next.ok, depth) && Own(next.fail, depth)
    && (next.onPanic.Recover? ==> Own(next.onPanic.handler, depth))
  }

  /** The innermost open transaction, or the pool. */
  function Innermost(st: Stack): Querier {
    match st { case Empty => Pool case Push(id, _, _) => Tx(id) }
  }

  /** Every statement in the trace was sent to the innermost transaction open at that moment. */
  ghost predicate ToInnermost(tr: Trace) {
    forall n | 0 <= n < |tr| && tr[n].Query? ::
      Monitor(tr[..n]).Some? && tr[n].target == Innermost(Monitor(tr[..n]).value)
  }

  lemma ToInnermostSnoc(tr: Trace, e: Event, st: Stack)
    requires ToInnermost(tr) && Monitor(tr) == Some(st) && (e.Query? ==> e.target == Innermost(st))
    ensures ToInnermost(tr + [e])
  {
    forall n | 0 <= n < |tr + [e]| && (tr + [e])[n].Query?
      ensures Monitor((tr + [e])[..n]).Some? && (tr + [e])[n].target == Innermost(Monitor((tr + [e])[..n]).value)
    {
      assert (tr + [e])[..n] == tr[..n];
      assert tr[..|tr|] == tr;
    }
  }

  /** Control is in a callback of the innermost transaction, whose context carries that one. */
  ghost predicate AtInnermost(env: seq<Ctx>, tr: Trace, st: Stack) {
    && Monitor(tr) == Some(st) && Idle(st) && InScope(env, st) && ToInnermost(tr)
    && (if st.Push? then env != [] && env[0] == Some(st.id) else env == [] || env[0].None?)
  }

  lemma {:induction false} RunToInnermost(p: Prog, env: seq<Ctx>, last: seq<Err>, tr: Trace, faults: Faults, st: Stack)
    requires Own(p, |env|) && AtInnermost(env, tr, st)
    ensures AtInnermost(env, Run(p, env, last, tr, faults).1, st)
    decreases p, 0
  {
    match p
    case Return(_) =>
    case ReturnLast =>
    case Raise(_) =>
    case Exec(c, next) =>
      var e := Query(DB(Lookup(env, c)), faults(|tr|).None?);
      MonitorSnoc(tr, e, st);
      ToInnermostSnoc(tr, e, st);
      ResumeToInnermost(next, env, Returned(ErrorList(faults(|tr|))), tr + [e], faults, st);
    case Start(c, body, next) =>
      var (o, tr') := RunStart(Lookup(env, c), body, env, tr, faults);
      StartToInnermost(Lookup(env, c), body, env, tr, faults, st);
      ResumeToInnermost(next, env, o, tr', faults, st);
    case Call(c, body, next) =>
      var (o, tr') := Run(body, [Lookup(env, c)] + env, [], tr, faults);
      RunToInnermost(body, [Lookup(env, c)] + env, [], tr, faults, st);
      ResumeToInnermost(next, env, o, tr', faults, st);
  }

  lemma {:induction false} ResumeToInnermost(next: Next, env: seq<Ctx>, o: Outcome,
                                             tr: Trace, faults: Faults, st: Stack)
    requires OwnNext(next, |env|) && AtInnermost(env, tr, st)
    ensures AtInnermost(env, Resume(next, env, o, tr, faults).1, st)
    decreases next, 0
  {
    match o
    case Returned(errs) =>
      RunToInnermost(next.ok, env, [], tr, faults, st);
      RunToInnermost(next.fail, env, errs, tr, faults, st);
    case Panicked(_) =>
      if next.onPanic.Recover? {
        RunToInnermost(next.onPanic.handler, env, [], tr, faults, st);
      }
  }

  lemma {:induction false} StartToInnermost(ctx: Ctx, cb: Prog, env: seq<Ctx>, tr: Trace, faults: Faults, st: Stack)
    requires Own(cb, |env| + 1) && AtInnermost(env, tr, st)
    requires ctx.Some? ==> env != [] && ctx == env[0]
    ensures AtInnermost(env, RunStart(ctx, cb, env, tr, faults).1, st)
    decreases cb, 1
  {
    if ctx.Some? {
      RunToInnermost(cb, [ctx] + env, [], tr, faults, st);
    } else if faults(|tr|).Some? {
      MonitorSnoc(tr, BeginFailed, st);
      ToInnermostSnoc(tr, BeginFailed, st);
    } else {
      var id := |tr|;
      MonitorSnoc(tr, Begin(id), st);
      MonitorSnoc(tr + [Begin(id)], Enter(id), Push(id, Opened, st));
      ToInnermostSnoc(tr, Begin(id), st);
      ToInnermostSnoc(tr + [Begin(id)], Enter(id), Push(id, Opened, st));
      RunToInnermost(cb, [Some(id)] + env, [], tr + [Begin(id)] + [Enter(id)], faults, Push(id, Running, st));
      var (o, tr1) := Run(cb, [Some(id)] + env, [], tr + [Begin(id)] + [Enter(id)], faults);
      FinishToInnermost(id, o, tr1, faults, st);
    }
  }

  lemma FinishToInnermost(id: nat, o: Outcome, tr: Trace, faults: Faults, st: Stack)
    requires Monitor(tr) == Some(Push(id, Running, st)) && ToInnermost(tr)
    ensures var tr' := Finish(id, o, tr + [Leave(id, o)], faults).1; Monitor(tr') == Some(st) && ToInnermost(tr')
  {
    FinishWatched(id, o, tr, faults, st);
    MonitorSnoc(tr, Leave(id, o), Push(id, Running, st));
    ToInnermostSnoc(tr, Leave(id, o), Push(id, Running, st));
    var tr' := tr + [Leave(id, o)];
    ToInnermostSnoc(tr', Commit(id, faults(|tr'|).None?), Push(id, Done(o), st));
    ToInnermostSnoc(tr', Rollback(id, faults(|tr'|).None?), Push(id, Done(o), st));
  }

  /**
   In a whole program whose callbacks use their own contexts every statement goes to the innermost transaction open,
   which is the one its callback's call opened or joined, and to the pool exactly when none is open.
   */
  lemma StatementsInside(p: Prog, faults: Faults, n: nat)
    requires Own(p, 0)
    requires var tr := Run(p, [], [], [], faults).1; n < |tr| && tr[n].Query?
    ensures var tr := Run(p, [], [], [], faults).1;
            && Monitor(tr[..n]).Some?
            && match Monitor(tr[..n]).value
               case Empty => tr[n].target == Pool
               case Push(id, _, _) => tr[n].target == Tx(id)
  {
    RunToInnermost(p, [], [], [], faults, Empty);
  }
}
