/** The statement execution plan: expression statements, basic blocks that
    replay their statement list a fixed number of times, and function-call
    statements. Running a plan produces the sequence of expression-statement
    executions it performs; a failed `CHECK` aborts it. */
module Statements {
  import opened Wrappers

  /** `Statement::SType`. */
  datatype SType = EXPR | BASICBLOCK | FUNCCALL

  /** A statement as a value. `Expr(op)` is an operator invocation (what it
      computes is outside this model); `Block(iter, stmts)` replays `stmts`
      `iter` times; `Call` carries the push-argument statement, the pop-return
      statement and the global context, each possibly NULL. */
  datatype Stmt =
    | Expr(op: nat)
    | Block(iter: int, stmts: seq<Stmt>)
    | Call(pushArg: Option<nat>, popRet: Option<nat>, globalCtxt: Option<nat>)

  /** `type()` of each statement class. */
  function Kind(s: Stmt): (k: SType)
    ensures k == EXPR <==> s.Expr?
    ensures k == BASICBLOCK <==> s.Block?
    ensures k == FUNCCALL <==> s.Call?
  {
    match s
    case Expr(_) => EXPR
    case Block(_, _) => BASICBLOCK
    case Call(_, _, _) => FUNCCALL
  }

  /** One execution of an expression statement's operator. */
  datatype Event = Ran(op: nat)

  /** What running a statement did: the operators it ran, in order, and
      whether a `CHECK` aborted it (nothing runs after an abort). */
  datatype Exec = Exec(events: seq<Event>, aborted: bool)

  const Nothing := Exec([], false)

  /** Running `a` and then, unless it aborted, `b`. */
  function Then(a: Exec, b: Exec): Exec {
    if a.aborted then a else Exec(a.events + b.events, b.aborted)
  }

  /** Running something with outcome `e` `n` times in a row. */
  function Times(n: int, e: Exec): (r: Exec)
    ensures n <= 0 ==> r == Nothing
    ensures n >= 1 && e.aborted ==> r == e
    ensures !e.aborted ==> r == Exec(Repeat(n, e.events), false)
    decreases n
  {
    if n <= 0 then Nothing else Then(e, Times(n - 1, e))
  }

  /** `n` copies of `xs`, concatenated. */
  function Repeat<T>(n: int, xs: seq<T>): seq<T>
    decreases n
  {
    if n <= 0 then [] else xs + Repeat(n - 1, xs)
  }

  /** What `Run()` of a statement does. A function call only checks that its
      push-argument statement and global context are set. */
  function RunStmt(s: Stmt): (r: Exec)
    ensures s.Block? && s.iter <= 0 ==> r == Nothing
    ensures !s.Block? ==> |r.events| <= 1
    ensures s.Call? ==> r.events == []
    decreases s, 1
  {
    match s
    case Expr(op) => Exec([Ran(op)], false)
    case Block(iter, stmts) => Times(iter, RunAll(stmts))
    case Call(pushArg, _, globalCtxt) => Exec([], pushArg.None? || globalCtxt.None?)
  }

  /** Running a statement list in order. */
  function RunAll(stmts: seq<Stmt>): (r: Exec)
    ensures stmts == [] ==> r == Nothing
    ensures |stmts| == 1 ==> r == RunStmt(stmts[0])
    decreases stmts, 0
  {
    if stmts == [] then Nothing else Then(RunStmt(stmts[0]), RunAll(stmts[1..]))
  }

  lemma ThenAssoc(a: Exec, b: Exec, c: Exec)
    ensures Then(Then(a, b), c) == Then(a, Then(b, c))
  {
  }

  lemma ThenNothing(a: Exec)
    ensures Then(a, Nothing) == a && Then(Nothing, a) == a
  {
  }

  /** Running a concatenation runs the two parts one after the other. */
  lemma {:induction false} RunAllAppend(xs: seq<Stmt>, ys: seq<Stmt>)
    ensures RunAll(xs + ys) == Then(RunAll(xs), RunAll(ys))
    decreases |xs|
  {
    if xs == [] {
      assert xs + ys == ys;
    } else {
      assert (xs + ys)[1..] == xs[1..] + ys;
      RunAllAppend(xs[1..], ys);
      ThenAssoc(RunStmt(xs[0]), RunAll(xs[1..]), RunAll(ys));
    }
  }

  /** One more pass may be appended at the end instead of the front. */
  lemma {:induction false} TimesSnoc(n: nat, e: Exec)
    ensures Times(n + 1, e) == Then(Times(n, e), e)
    decreases n
  {
    if n == 0 {
      ThenNothing(e);
    } else {
      TimesSnoc(n - 1, e);
      ThenAssoc(e, Times(n - 1, e), e);
    }
  }

  /** An aborted outcome absorbs whatever would have come after it. */
  lemma AbortAbsorbs(a: Exec, b: Exec)
    requires a.aborted
    ensures Then(a, b) == a
  {
  }

  /** Once the passes done so far have aborted, further passes change nothing. */
  lemma {:induction false} TimesAfterAbort(i: nat, n: int, e: Exec)
    requires i <= n && Times(i, e).aborted
    ensures Times(n, e) == Times(i, e)
    decreases n - i
  {
    if i < n {
      TimesSnoc(n - 1, e);
      TimesAfterAbort(i, n - 1, e);
      AbortAbsorbs(Times(n - 1, e), e);
    }
  }

  /** `n` copies of `xs` are `n` times as long as `xs`. */
  lemma {:induction false} RepeatLength<T>(n: int, xs: seq<T>)
    ensures |Repeat(n, xs)| == (if n <= 0 then 0 else n) * |xs|
    decreases n
  {
    if n > 0 {
      RepeatLength(n - 1, xs);
      assert (if n - 1 <= 0 then 0 else n - 1) * |xs| + |xs| == n * |xs|;
    }
  }

  /** A block whose statement list does not abort runs that list's operators
      `iter` times over, in append order. */
  lemma BlockRepeatsBody(iter: int, stmts: seq<Stmt>)
    requires !RunAll(stmts).aborted
    ensures RunStmt(Block(iter, stmts)) == Exec(Repeat(iter, RunAll(stmts).events), false)
    ensures |RunStmt(Block(iter, stmts)).events| == (if iter <= 0 then 0 else iter) * |RunAll(stmts).events|
  {
    RepeatLength(iter, RunAll(stmts).events);
  }

  /** A block whose statement list aborts stops inside its first pass. */
  lemma BlockAbortsInFirstPass(iter: int, stmts: seq<Stmt>)
    requires RunAll(stmts).aborted && iter >= 1
    ensures RunStmt(Block(iter, stmts)) == RunAll(stmts)
  {
  }

  /** Executes a statement: the nested loops of `BasicBlock::Run` over its
      passes and its statements, stopping at the first aborted `CHECK`. */
  method Execute(s: Stmt) returns (e: Exec)
    ensures e == RunStmt(s)
    decreases s
  {
    hide Times, RunAll;
    match s
    case Expr(op) =>
      e := Exec([Ran(op)], false);
    case Call(pushArg, _, globalCtxt) =>
      e := Exec([], pushArg.None? || globalCtxt.None?);
    case Block(iter, stmts) =>
      ghost var body := RunAll(stmts);
      e := Nothing;
      var i := 0;
      while i < iter
        invariant 0 <= i && (iter > 0 ==> i <= iter) && (iter <= 0 ==> i == 0)
        invariant e == Times(i, body) && !e.aborted
      {
        var k := 0;
        while k < |stmts|
          invariant 0 <= k <= |stmts|
          invariant e == Then(Times(i, body), RunAll(stmts[..k])) && !e.aborted
        {
          var c := Execute(stmts[k]);
          ghost var before := e;
          e := Then(e, c);
          assert stmts[..k + 1] == stmts[..k] + [stmts[k]];
          RunAllAppend(stmts[..k], [stmts[k]]);
          ThenNothing(RunStmt(stmts[k]));
          ThenAssoc(Times(i, body), RunAll(stmts[..k]), RunStmt(stmts[k]));
          if e.aborted {
            assert stmts == stmts[..k + 1] + stmts[k + 1..];
            RunAllAppend(stmts[..k + 1], stmts[k + 1..]);
            ThenAssoc(Times(i, body), RunAll(stmts[..k + 1]), RunAll(stmts[k + 1..]));
            TimesSnoc(i, body);
            TimesAfterAbort(i + 1, iter, body);
            return;
          }
          k := k + 1;
        }
        assert stmts[..k] == stmts;
        TimesSnoc(i, body);
        i := i + 1;
      }
  }

  /** `BasicBlock`: an iteration count fixed at construction and a statement
      list that grows at the end. */
  class BasicBlock {
    const iter: int
    var stmts: seq<Stmt>

    /** `BasicBlock(iter)`; the count must be positive. */
    constructor (iter: int)
      requires iter > 0
      ensures this.iter == iter && stmts == []
    {
      this.iter := iter;
      stmts := [];
    }

    /** The block as a statement value. */
    function AsStmt(): (s: Stmt)
      reads this
      ensures s.Block? && s.iter == iter && s.stmts == stmts
    {
      Block(iter, stmts)
    }

    function Type(): (k: SType)
      reads this
      ensures k == Kind(AsStmt())
    {
      BASICBLOCK
    }

    /** `AppendStmt(stmt)`: its check rejects NULL; otherwise appends at the
        end and returns its argument. */
    method AppendStmt(stmt: Option<Stmt>) returns (r: Result<Stmt>)
      modifies this
      ensures r.Failed? <==> stmt.None?
      ensures stmt.Some? ==> r == Ok(stmt.value) && stmts == old(stmts) + [stmt.value]
      ensures stmt.None? ==> stmts == old(stmts)
    {
      if stmt.None? {
        return Failed("statement is NULL");
      }
      stmts := stmts + [stmt.value];
      r := Ok(stmt.value);
    }

    method Run() returns (e: Exec)
      ensures e == RunStmt(AsStmt())
    {
      e := Execute(Block(iter, stmts));
    }
  }

  /** `FunctionCallStatement`: three settable references, all NULL at first. */
  class FunctionCallStatement {
    var pushArg: Option<nat>
    var popRet: Option<nat>
    var globalCtxt: Option<nat>

    constructor ()
      ensures pushArg.None? && popRet.None? && globalCtxt.None?
    {
      pushArg := None;
      popRet := None;
      globalCtxt := None;
    }

    function AsStmt(): (s: Stmt)
      reads this
      ensures s == Call(pushArg, popRet, globalCtxt)
    {
      Call(pushArg, popRet, globalCtxt)
    }

    function Type(): (k: SType)
      reads this
      ensures k == Kind(AsStmt())
    {
      FUNCCALL
    }

    method SetPushArgStatement(pushArg: Option<nat>)
      modifies this`pushArg
      ensures this.pushArg == pushArg
    {
      this.pushArg := pushArg;
    }

    method SetPopRetStatement(popRet: Option<nat>)
      modifies this`popRet
      ensures this.popRet == popRet
    {
      this.popRet := popRet;
    }

    method SetGlobalContext(globalCtxt: Option<nat>)
      modifies this`globalCtxt
      ensures this.globalCtxt == globalCtxt
    {
      this.globalCtxt := globalCtxt;
    }

    /** `Run()`: succeeds exactly when the push-argument statement and the
        global context are set (the pop-return statement may be NULL); runs
        nothing. */
    method Run() returns (ok: bool)
      ensures ok <==> pushArg.Some? && globalCtxt.Some?
      ensures RunStmt(AsStmt()) == Exec([], !ok)
    {
      ok := pushArg.Some? && globalCtxt.Some?;
    }
  }

  /** The round counter shared by all statements (`Statement::round_`). */
  class Rounds {
    var round: int

    constructor (start: int)
      ensures round == start
    {
      round := start;
    }

    /** `IncRound()`. */
    method IncRound()
      modifies this
      ensures round == old(round) + 1
    {
      round := round + 1;
    }
  }
}
