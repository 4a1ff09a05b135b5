/** The single pass of src/compiler.c: it reads tokens, appends bytes and patches jumps in
    place, with no tree in between. Each method is proved to do what recognising the tree
    and generating its code would do. */
module Compiler {
  import opened Values
  import opened Syntax
  import opened Bytecode
  import opened Codegen
  import opened Machine
  import P = Parser
  import Script

  /** What a method may change, as a value. */
  datatype State = State(rest: seq<Token>, code: seq<Byte>, scope: Scope)

  /** The state after appending generated code; None is hadError. */
  function Append(st: State, rest: seq<Token>, g: Gen): Option<State> {
    if g.Code? then Some(State(rest, st.code + g.bytes, g.scope)) else None
  }

  function ExprStep(st: State, p: P.Parsed<Expr>): Option<State> {
    if p.Got? then Append(st, p.rest, GenExpr(p.tree, st.scope)) else None
  }

  function StmtStep(st: State, p: P.Parsed<Stmt>): Option<State>
    requires Settled(st.scope)
  {
    if p.Got? then Append(st, p.rest, GenStmt(p.tree, st.scope)) else None
  }

  // ----- placeholders -----

  function Hole(j: Jumping): (r: seq<Byte>)
    ensures |r| == 3
  {
    [BranchByte(j), 255, 255]
  }

  function Patched(code: seq<Byte>, at: nat, dist: nat): seq<Byte>
    requires at + 2 <= |code|
  {
    code[at := dist / 256 % 256][at + 1 := dist % 256]
  }

  /** Patching a placeholder turns it into the jump. */
  lemma PatchFills(a: seq<Byte>, j: Jumping, b: seq<Byte>, dist: nat)
    ensures Patched(a + Hole(j) + b, |a| + 1, dist) == a + EmitBranch(j, dist) + b
  {
  }

  lemma Regroup(a: seq<Byte>, b: seq<Byte>, c: seq<Byte>)
    ensures a + b + c == a + (b + c)
  {
  }

  /** A placeholder, a pop and the code to jump over. */
  lemma HoleTail(a: seq<Byte>, j: Jumping, right: seq<Byte>)
    ensures var code := a + Hole(j) + EmitPlain(Pop) + right;
      |code| == |a| + 4 + |right|
      && Patched(code, |a| + 1, 1 + |right|) == a + (EmitBranch(j, 1 + |right|) + (EmitPlain(Pop) + right))
  {
    Regroup(a + Hole(j), EmitPlain(Pop), right);
    PatchFills(a, j, EmitPlain(Pop) + right, 1 + |right|);
    Regroup(a, EmitBranch(j, 1 + |right|), EmitPlain(Pop) + right);
  }

  function LiteralOf(t: Token): Option<Expr> {
    if t == TNil then Some(NilLit)
    else if t == TTrue then Some(BoolLit(true))
    else if t == TFalse then Some(BoolLit(false))
    else if t.TNumber? then Some(NumLit(t.n))
    else if t.TString? then Some(StrLit(t.s))
    else None
  }

  /** The prefix rules by their first token. */
  lemma PrefixCases(ts: seq<Token>, canAssign: bool)
    ensures var t := P.Peek(ts);
      P.Prefix(ts, canAssign) ==
        if LiteralOf(t).Some? then P.Got(LiteralOf(t).value, ts[1..])
        else if t.TIdentifier? then
          if canAssign && P.Peek(ts[1..]) == TEqual then
            var e := P.ParsePrecedence(ts[1..][1..], PREC_ASSIGNMENT);
            if e.Got? then P.Got(Assign(t.name, e.tree), e.rest) else P.Fail
          else P.Got(Var(t.name), ts[1..])
        else if t == TLeftParen then
          var e := P.ParsePrecedence(ts[1..], PREC_ASSIGNMENT);
          if e.Got? && P.Expect(TRightParen, e.rest).Got?
          then P.Got(Group(e.tree), P.Expect(TRightParen, e.rest).rest) else P.Fail
        else if t == TOp(Minus) || t == TBang then
          var e := P.ParsePrecedence(ts[1..], PREC_UNARY);
          if e.Got?
          then P.Got(Expr.Unary(if t == TBang then UnaryOp.Not else UnaryOp.Negate, e.tree), e.rest) else P.Fail
        else P.Fail
  {
    hide P.ParsePrecedence;
    if |ts| >= 2 {
      assert ts[1..][1..] == ts[2..];
    }
  }

  lemma GroupGen(e: Expr, sc: Scope)
    ensures GenExpr(Group(e), sc) == GenExpr(e, sc)
  {
  }

  lemma ParseUnfolds(ts: seq<Token>, p: nat)
    ensures var r := P.Prefix(ts, p <= PREC_ASSIGNMENT);
      P.ParsePrecedence(ts, p) == if r.Got? then P.Infixes(r.tree, r.rest, p) else P.Fail
  {
  }

  /** The end of the input binds nothing. */
  lemma NotAtEnd(ts: seq<Token>)
    requires InfixPrec(P.Peek(ts)) >= PREC_ASSIGNMENT
    ensures ts != []
  {
  }

  lemma InfixesEnd(left: Expr, ts: seq<Token>, p: nat)
    requires p > InfixPrec(P.Peek(ts))
    ensures P.Infixes(left, ts, p) == if p <= PREC_ASSIGNMENT && P.Peek(ts) == TEqual then P.Fail else P.Got(left, ts)
  {
  }

  // ----- the two passes of an infix operator, in one -----

  /** What follows the code of the left operand. */
  function Tail(t: Token, right: Gen): Gen
    requires t.TOp? || t == TAnd || t == TOr
  {
    if t.TOp? then Operated(right, BinarySimple(t.op))
    else if t == TAnd then AndTail(right)
    else OrTail(right)
  }

  /** The right operand of the infix operator t, and its instructions. */
  function OperandStep(st: State, t: Token): Option<State>
    requires t.TOp? || t == TAnd || t == TOr
  {
    var p := P.ParsePrecedence(st.rest, P.RightPrec(t));
    if p.Got? then Append(st, p.rest, Tail(t, GenExpr(p.tree, st.scope))) else None
  }

  function InfixStep(st: State): Option<State>
    requires st.rest != []
  {
    var t := st.rest[0];
    if t.TOp? || t == TAnd || t == TOr then OperandStep(st.(rest := st.rest[1..]), t) else None
  }

  lemma CombineTail(t: Token, left: Expr, right: Expr, sc: Scope)
    requires t.TOp? || t == TAnd || t == TOr
    requires GenExpr(left, sc).Code?
    ensures GenExpr(P.Combine(t, left, right), sc) ==
      Extended(GenExpr(left, sc), Tail(t, GenExpr(right, GenExpr(left, sc).scope)))
  {
    hide GenExpr, Extended, Operated, AndTail, OrTail, Grows;
    if t.TOp? {
      BinaryUnfolds(t.op, left, right, sc);
    } else if t == TAnd {
      AndUnfolds(left, right, sc);
    } else {
      OrUnfolds(left, right, sc);
    }
  }

  lemma UnaryGen(op: UnaryOp, e: Expr, sc: Scope)
    ensures GenExpr(Unary(op, e), sc) == Operated(GenExpr(e, sc), UnarySimple(op))
  {
    hide Extended, Operated, AndTail, OrTail, Grows, Resolve, GenConstant, EmitAt;
  }

  lemma VarGen(x: Name, sc: Scope)
    ensures GenExpr(Var(x), sc) == GenRead(Resolve(sc, x))
  {
    hide Extended, Operated, AndTail, OrTail, Grows, Resolve, GenConstant, EmitAt;
  }

  lemma AssignGen(x: Name, e: Expr, sc: Scope)
    ensures var p := Resolve(sc, x);
      GenExpr(Assign(x, e), sc) ==
        if p.None? || p.value.readonly then Rejected else
        var g := GenExpr(e, p.value.scope);
        if g.Rejected? then Rejected else Extended(g, GenWrite(p.value, g.scope))
  {
    hide GenExpr, Extended, Grows, GenWrite, Resolve;
    AssignUnfolds(x, e, sc);
  }

  /** Appending in two pieces. */
  lemma AppendMore(st: State, rest: seq<Token>, g: Gen, rest1: seq<Token>, more: seq<Byte>, sc: Scope)
    requires g.Code?
    ensures State(rest1, Append(st, rest, g).value.code + more, sc) == Append(st, rest1, Code(g.bytes + more, sc)).value
  {
  }

  /** Code that was rejected stays rejected whatever is parsed after it. */
  lemma {:induction false} RejectedStays(left: Expr, ts: seq<Token>, p: nat, sc: Scope)
    requires GenExpr(left, sc).Rejected?
    ensures var e := P.Infixes(left, ts, p); e.Got? ==> GenExpr(e.tree, sc).Rejected?
    decreases |ts|
  {
    if p <= InfixPrec(P.Peek(ts)) && ts != [] {
      var r := P.Infix(left, ts);
      if r.Got? {
        RejectedStays(r.tree, r.rest, p, sc);
      }
    }
  }

  /** One round of the infix loop. */
  lemma InfixDone(left: Expr, st: State, st1: State, p: nat)
    requires p <= InfixPrec(P.Peek(st1.rest)) && st1.rest != []
    requires Append(st, st1.rest, GenExpr(left, st.scope)) == Some(st1)
    ensures var r := P.Infix(left, st1.rest);
      match InfixStep(st1)
      case None => var e := P.Infixes(left, st1.rest, p); e.Fail? || GenExpr(e.tree, st.scope).Rejected?
      case Some(st2) =>
        && r.Got? && st2.rest == r.rest
        && P.Infixes(left, st1.rest, p) == P.Infixes(r.tree, r.rest, p)
        && Append(st, st2.rest, GenExpr(r.tree, st.scope)) == Some(st2)
  {
    hide GenExpr, P.ParsePrecedence, Tail;
    var t := st1.rest[0];
    if t.TOp? || t == TAnd || t == TOr {
      var e := P.ParsePrecedence(st1.rest[1..], P.RightPrec(t));
      if e.Got? {
        CombineTail(t, left, e.tree, st.scope);
        var tail := Tail(t, GenExpr(e.tree, st1.scope));
        if tail.Code? {
          AppendMore(st, st1.rest, GenExpr(left, st.scope), e.rest, tail.bytes, tail.scope);
        } else {
          RejectedStays(P.Combine(t, left, e.tree), e.rest, p, st.scope);
        }
      }
    }
  }

  // ----- statements, part by part -----

  function Mapped<A, B>(p: P.Parsed<A>, f: A -> B): P.Parsed<B> {
    if p.Got? then P.Got(f(p.tree), p.rest) else P.Fail
  }

  lemma ExprStmtGen(st: State, p: P.Parsed<Expr>)
    requires Settled(st.scope)
    ensures StmtStep(st, Mapped(p, e => ExprStmt(e))) ==
      if p.Fail? || GenExpr(p.tree, st.scope).Rejected? then None else
      var g := GenExpr(p.tree, st.scope);
      Some(State(p.rest, st.code + g.bytes + EmitPlain(Pop), g.scope))
  {
    hide GenExpr, Settled;
    if p.Got? && GenExpr(p.tree, st.scope).Code? {
      Regroup(st.code, GenExpr(p.tree, st.scope).bytes, EmitPlain(Pop));
    }
  }

  lemma PrintGen(st: State, p: P.Parsed<Expr>)
    requires Settled(st.scope)
    ensures StmtStep(st, Mapped(p, e => Stmt.Print(e))) ==
      if p.Fail? || GenExpr(p.tree, st.scope).Rejected? then None else
      var g := GenExpr(p.tree, st.scope);
      Some(State(p.rest, st.code + g.bytes + EmitPlain(Simple.Print), g.scope))
  {
    hide GenExpr, Settled;
    if p.Got? && GenExpr(p.tree, st.scope).Code? {
      Regroup(st.code, GenExpr(p.tree, st.scope).bytes, EmitPlain(Simple.Print));
    }
  }

  /** The scope after a global has been marked constant or not. */
  function Marked(sc: Scope, addr: nat, readonly: bool): Scope
    requires addr < |sc.globals|
  {
    sc.(globals := sc.globals[addr := sc.globals[addr].(readonly := readonly)])
  }

  /** A declaration in the order in which the single pass meets its parts: the name, the
      initializer, the definition. */
  function VarStep(st: State, readonly: bool, x: string, init: P.Parsed<Option<Expr>>): Option<State> {
    if st.scope.depth > 0 then
      match DeclareLocal(st.scope, x)
      case None => None
      case Some(sc) =>
        var g := if init.Got? then GenInit(init.tree, sc) else Rejected;
        if g.Rejected? then None
        else Some(State(init.rest, st.code + g.bytes, DefineLocal(g.scope, AddedAddress(st.scope.locals, x), readonly)))
    else
      var (globals, addr) := MakeGlobal(st.scope.globals, x);
      var g := if init.Got? then GenInit(init.tree, st.scope.(globals := globals)) else Rejected;
      if g.Rejected? then None
      else
        var define := EmitAt(DefineGlobal, addr, Marked(g.scope, addr, readonly));
        Some(State(init.rest, st.code + g.bytes + define.bytes, define.scope))
  }

  /** The initializer of a declaration, up to and with the semicolon. */
  function InitOf(ts: seq<Token>): P.Parsed<Option<Expr>> {
    if P.Peek(ts) == TEqual then
      var e := P.ExpressionThen(TSemicolon, ts[1..]);
      if e.Got? then P.Got(Some(e.tree), e.rest) else P.Fail
    else
      var end := P.Expect(TSemicolon, ts);
      if end.Got? then P.Got(None, end.rest) else P.Fail
  }

  lemma NoName(ts: seq<Token>, readonly: bool)
    requires !P.Peek(ts).TIdentifier?
    ensures P.VarDeclaration(readonly, ts).Fail?
  {
  }

  lemma VarCases(st: State, readonly: bool)
    requires Settled(st.scope) && P.Peek(st.rest).TIdentifier?
    ensures StmtStep(st, P.VarDeclaration(readonly, st.rest)) ==
      VarStep(st, readonly, P.Peek(st.rest).name, InitOf(st.rest[1..]))
  {
    hide GenExpr, P.ParsePrecedence, Settled, EmitAt, DefineLocal, DeclareLocal, Resolve, AddedAddress;
    if |st.rest| >= 2 {
      assert st.rest[1..][1..] == st.rest[2..];
    }
    var x := P.Peek(st.rest).name;
    var init := InitOf(st.rest[1..]);
    if init.Got? && st.scope.depth == 0 {
      var (globals, addr) := MakeGlobal(st.scope.globals, x);
      var g := GenInit(init.tree, st.scope.(globals := globals));
      if g.Code? {
        Regroup(st.code, g.bytes, EmitAt(DefineGlobal, addr, Marked(g.scope, addr, readonly)).bytes);
      }
    }
  }

  lemma NoPops(code: seq<Byte>)
    ensures code == code + Pops(0)
  {
  }

  lemma PopIsByte()
    ensures EmitPlain(Pop) == [OP_POP]
  {
  }

  lemma {:induction false} PopsAtEnd(n: nat)
    ensures Pops(n + 1) == Pops(n) + EmitPlain(Pop)
    decreases n
  {
    if n > 0 {
      PopsAtEnd(n - 1);
    }
  }

  // ----- sequences of statements -----

  /** The rest of a block, with its closing brace. */
  function BlockStep(st: State): Option<State>
    requires Settled(st.scope)
  {
    var p := P.BlockRest(st.rest);
    if p.Got? then Append(st, p.rest, GenStmts(p.tree, st.scope)) else None
  }

  /** The rest of the program. */
  function ProgramStep(st: State): Option<State>
    requires Settled(st.scope)
  {
    var p := P.Program(st.rest);
    if p.Some? then Append(st, [], GenStmts(p.value, st.scope)) else None
  }

  /** A declaration, then the rest. */
  lemma ConsGen(st: State, s: Stmt, rest1: seq<Token>, ss: Stmts, rest2: seq<Token>)
    requires Settled(st.scope)
    ensures Append(st, rest2, GenStmts(Cons(s, ss), st.scope)) ==
      match Append(st, rest1, GenStmt(s, st.scope))
      case None => None
      case Some(st1) => Append(st1, rest2, GenStmts(ss, st1.scope))
  {
    hide GenStmt, Settled;
    var g := GenStmt(s, st.scope);
    if g.Code? {
      var h := GenStmts(ss, g.scope);
      if h.Code? {
        Regroup(st.code, g.bytes, h.bytes);
      }
    }
  }

  lemma BlockUnfolds(st: State)
    requires Settled(st.scope) && st.rest != [] && st.rest[0] != TRightBrace
    ensures BlockStep(st) ==
      match StmtStep(st, P.Declaration(st.rest))
      case None => None
      case Some(st1) => BlockStep(st1)
  {
    hide GenStmt, GenStmts, Settled, P.Declaration;
    var d := P.Declaration(st.rest);
    if d.Got? {
      var p := P.BlockRest(d.rest);
      if p.Got? {
        ConsGen(st, d.tree, d.rest, p.tree, p.rest);
      }
    }
  }

  lemma BlockEnds(st: State)
    requires Settled(st.scope) && (st.rest == [] || st.rest[0] == TRightBrace)
    ensures BlockStep(st) == if st.rest == [] then None else Some(st.(rest := st.rest[1..]))
  {
    assert st.code + [] == st.code;
  }

  lemma ProgramUnfolds(st: State)
    requires Settled(st.scope) && st.rest != []
    ensures ProgramStep(st) ==
      match StmtStep(st, P.Declaration(st.rest))
      case None => None
      case Some(st1) => ProgramStep(st1)
  {
    hide GenStmt, GenStmts, Settled, P.Declaration;
    var d := P.Declaration(st.rest);
    if d.Got? {
      var p := P.Program(d.rest);
      if p.Some? {
        ConsGen(st, d.tree, d.rest, p.value, []);
      }
    }
  }

  lemma ProgramEnds(st: State)
    requires Settled(st.scope) && st.rest == []
    ensures ProgramStep(st) == Some(st)
  {
    assert st.code + [] == st.code;
  }

  lemma ScriptSettled(globals: seq<Global>)
    ensures Settled(ScriptScope(globals))
  {
  }

  /** Compiling a script is compiling the rest of the program from its start. */
  lemma ProgramCompiled(ts: seq<Token>, globals: seq<Global>)
    ensures var r := ProgramStep(State(ts, [], ScriptScope(globals)));
      Script.Compiled(ts, globals) ==
        if r.None? then Rejected
        else Code(r.value.code + (EmitPlain(PushNil) + EmitPlain(Return)), r.value.scope)
  {
    hide GenStmts, Settled, EmitPlain;
    ScriptSettled(globals);
    var p := P.Program(ts);
    if p.Some? {
      var g := GenStmts(p.value, ScriptScope(globals));
      if g.Code? {
        assert [] + g.bytes == g.bytes;
      }
    }
  }

  lemma StepSettled(st: State, p: P.Parsed<Stmt>)
    requires Settled(st.scope)
    ensures var r := StmtStep(st, p); r.Some? ==> Settled(r.value.scope)
  {
    hide Settled;
  }

  lemma BlockGen(st: State)
    requires Settled(st.scope)
    ensures var inner := st.(scope := Codegen.BeginScope(st.scope));
      && Settled(inner.scope)
      && StmtStep(st, Mapped(P.BlockRest(st.rest), ss => Stmt.Block(ss))) ==
        match BlockStep(inner)
        case None => None
        case Some(st1) => Append(st1, st1.rest, Codegen.EndScope(st1.scope))
    ensures var r := BlockStep(st.(scope := Codegen.BeginScope(st.scope))); r.Some? ==> r.value.scope.depth > 0
  {
    hide GenStmts, Codegen.EndScope, P.BlockRest;
    var p := P.BlockRest(st.rest);
    if p.Got? {
      var g := GenStmts(p.tree, Codegen.BeginScope(st.scope));
      if g.Code? {
        Regroup(st.code, g.bytes, Codegen.EndScope(g.scope).bytes);
      }
    }
  }

  /** "( expression )" */
  function Condition(ts: seq<Token>): P.Parsed<Expr> {
    var lp := P.Expect(TLeftParen, ts);
    if lp.Fail? then P.Fail else P.ExpressionThen(TRightParen, lp.rest)
  }

  function ElseBranch(ts: seq<Token>): P.Parsed<Option<Stmt>> {
    if P.Peek(ts) == TElse then Mapped(P.Statement(ts[1..]), s => Some(s)) else P.Got(None, ts)
  }

  function OptStep(st: State, p: P.Parsed<Option<Stmt>>): Option<State>
    requires Settled(st.scope)
  {
    if p.Got? then Append(st, p.rest, GenOptional(p.tree, st.scope)) else None
  }

  /** An `if`, part by part. */
  function IfStep(st: State): Option<State>
    requires Settled(st.scope)
  {
    var c := Condition(st.rest);
    if c.Fail? || GenExpr(c.tree, st.scope).Rejected? then None else
    var test := GenExpr(c.tree, st.scope);
    AfterExpr(st.scope, test.scope);
    var thn := P.Statement(c.rest);
    if thn.Fail? || GenStmt(thn.tree, test.scope).Rejected? then None else
    var yes := GenStmt(thn.tree, test.scope);
    var els := ElseBranch(thn.rest);
    if els.Fail? || GenOptional(els.tree, yes.scope).Rejected? then None else
    var no := GenOptional(els.tree, yes.scope);
    if !IfReach(yes.bytes, no.bytes) then None
    else Some(State(els.rest, st.code + IfBytes(test.bytes, yes.bytes, no.bytes), no.scope))
  }

  lemma IfCases(st: State)
    requires Settled(st.scope)
    ensures StmtStep(st, P.IfStatement(st.rest)) == IfStep(st)
  {
    hide GenExpr, GenStmt, GenOptional, IfBytes, P.ExpressionThen, P.Statement, Settled;
    var p := P.IfStatement(st.rest);
    if p.Got? {
      IfIsGenIf(p.tree, st.scope);
    }
  }

  lemma IfIsGenIf(s: Stmt, sc: Scope)
    requires s.If? && Settled(sc)
    ensures GenStmt(s, sc) == GenIf(s.c, s.thn, s.els, sc)
  {
    hide GenIf, Settled;
  }

  lemma WhileIsGenLoop(s: Stmt, sc: Scope)
    requires s.While? && Settled(sc)
    ensures GenStmt(s, sc) == GenLoop(Some(s.c), None, s.loop, sc)
  {
    hide GenLoop, Settled;
  }

  /** The parts of a loop that are compiled before its body: what it leaves, and where. */
  function WhileStep(st: State): Option<State>
    requires Settled(st.scope)
  {
    var c := Condition(st.rest);
    if c.Fail? then None else LoopStep(st.code, st.scope, Some(c.tree), None, c.rest)
  }

  /** A loop whose header has been parsed, with its body next. */
  function LoopStep(code: seq<Byte>, sc: Scope, cond: Option<Expr>, incr: Option<Expr>, rest: seq<Token>): Option<State>
    requires Settled(sc)
  {
    var loop := P.Statement(rest);
    if loop.Fail? then None else Append(State(rest, code, sc), loop.rest, GenLoop(cond, incr, loop.tree, sc))
  }

  lemma WhileCases(st: State)
    requires Settled(st.scope)
    ensures StmtStep(st, P.WhileStatement(st.rest)) == WhileStep(st)
  {
    hide GenExpr, GenStmt, GenLoop, P.ExpressionThen, P.Statement, Settled;
    var p := P.WhileStatement(st.rest);
    if p.Got? {
      WhileIsGenLoop(p.tree, st.scope);
    }
  }

  /** GenLoop, part by part. */
  lemma LoopCases(cond: Option<Expr>, incr: Option<Expr>, loop: Stmt, sc: Scope)
    requires Settled(sc)
    ensures var test := GenOpt(cond, sc);
      GenLoop(cond, incr, loop, sc) ==
        if test.Rejected? then Rejected else
        var step := GenOpt(incr, test.scope);
        if step.Rejected? then Rejected else
        (AfterExpr(sc, step.scope);
        var body := GenStmt(loop, step.scope);
        if body.Rejected? || !LoopReach(Part(cond, test.bytes), Part(incr, step.bytes), body.bytes) then Rejected
        else Code(LoopBytes(Part(cond, test.bytes), Part(incr, step.bytes), body.bytes), body.scope))
  {
    hide GenExpr, GenStmt, GenOpt, Settled, LoopReach, LoopBytes;
    var test := GenOpt(cond, sc);
    if test.Code? {
      var step := GenOpt(incr, test.scope);
      if step.Code? {
        AfterExpr(sc, step.scope);
      }
    }
  }

  /** A `for`, part by part. */
  function ForStep(st: State): Option<State>
    requires Settled(st.scope)
  {
    var lp := P.Expect(TLeftParen, st.rest);
    if lp.Fail? then None else
    match OptStep(State(lp.rest, st.code, Codegen.BeginScope(st.scope)), P.ForFirst(lp.rest))
    case None => None
    case Some(st1) =>
      match ClausesStep(st1)
      case None => None
      case Some(st2) => Append(st2, st2.rest, Codegen.EndScope(st2.scope))
  }

  /** What follows the first semicolon of a `for`: the test, the increment, the body. */
  function ClausesStep(st: State): (r: Option<State>)
    requires Settled(st.scope)
    ensures r.Some? ==> r.value.scope.depth == st.scope.depth
  {
    var cond := P.OptExpressionThen(TSemicolon, st.rest);
    if cond.Fail? then None else
    var incr := P.OptExpressionThen(TRightParen, cond.rest);
    if incr.Fail? then None else
    LoopStep(st.code, st.scope, cond.tree, incr.tree, incr.rest)
  }

  lemma ForCases(st: State)
    requires Settled(st.scope)
    ensures StmtStep(st, P.ForStatement(st.rest)) == ForStep(st)
  {
    hide GenExpr, GenStmt, GenOptional, GenLoop, P.ForFirst, P.OptExpressionThen, P.Statement, Settled,
        Codegen.EndScope;
    var p := P.ForStatement(st.rest);
    if p.Got? {
      var s := p.tree;
      ForIsGenFor(s, st.scope);
      var first := GenOptional(s.first, Codegen.BeginScope(st.scope));
      if first.Code? {
        var loop := GenLoop(s.cond, s.incr, s.loop, first.scope);
        if loop.Code? {
          Regroup(st.code, first.bytes, loop.bytes);
          Regroup(st.code, first.bytes + loop.bytes, Codegen.EndScope(loop.scope).bytes);
        }
      }
    }
  }

  lemma ScopeSettled(sc: Scope)
    requires Settled(sc)
    ensures Settled(Codegen.BeginScope(sc))
  {
  }

  /** The test and increment compile, and the jumps around the increment reach. */
  predicate HeaderCompiles(cond: Option<Expr>, incr: Option<Expr>, sc: Scope) {
    var test := GenOpt(cond, sc);
    && test.Code?
    && var step := GenOpt(incr, test.scope);
    && step.Code?
    && (incr.Some? ==>
          && Reach(|step.bytes| + 1 + 3)
          && Reach(TestSize(Part(cond, test.bytes)) + IncrSize(Part(incr, step.bytes))))
  }

  lemma LoopRejected(code: seq<Byte>, sc: Scope, cond: Option<Expr>, incr: Option<Expr>, rest: seq<Token>)
    requires Settled(sc) && !HeaderCompiles(cond, incr, sc)
    ensures LoopStep(code, sc, cond, incr, rest) == None
  {
    hide GenExpr, GenStmt, GenOpt, P.Statement, Settled;
  }

  lemma FirstDepth(st: State, p: P.Parsed<Option<Stmt>>)
    requires Settled(st.scope)
    ensures var r := OptStep(st, p); r.Some? ==> r.value.scope.depth == st.scope.depth && Settled(r.value.scope)
  {
    hide GenOptional, Settled;
  }

  lemma ForIsGenFor(s: Stmt, sc: Scope)
    requires s.For? && Settled(sc)
    ensures Settled(Codegen.BeginScope(sc))
    ensures var g := GenFor(s.first, s.cond, s.incr, s.loop, Codegen.BeginScope(sc));
      GenStmt(s, sc) ==
        if g.Rejected? then Rejected
        else Code(g.bytes + Codegen.EndScope(g.scope).bytes, Codegen.EndScope(g.scope).scope)
  {
    hide GenFor, Codegen.EndScope;
  }

  // ----- the layouts, assembled with placeholders -----

  lemma IfAssembled(c: seq<Byte>, test: seq<Byte>, yes: seq<Byte>, no: seq<Byte>)
    ensures var a := c + test;
      var one := a + Hole(JumpIfFalse) + EmitPlain(Pop) + yes + Hole(Jump);
      var two := Patched(one, |a| + 1, |yes| + 4);
      var three := two + EmitPlain(Pop) + no;
      |two| == |one| && Patched(three, |one| - 2, 1 + |no|) == c + IfBytes(test, yes, no)
  {
    hide EmitPlain, EmitBranch, Patched;
    var a := c + test;
    var one := a + Hole(JumpIfFalse) + EmitPlain(Pop) + yes + Hole(Jump);
    var body := EmitPlain(Pop) + yes;
    assert one == a + Hole(JumpIfFalse) + (body + Hole(Jump));
    PatchFills(a, JumpIfFalse, body + Hole(Jump), |yes| + 4);
    var skip := EmitBranch(JumpIfFalse, |yes| + 4);
    var front := a + skip + body;
    assert Patched(one, |a| + 1, |yes| + 4) == front + Hole(Jump);
    assert front + Hole(Jump) + EmitPlain(Pop) + no == front + Hole(Jump) + (EmitPlain(Pop) + no);
    PatchFills(front, Jump, EmitPlain(Pop) + no, 1 + |no|);
    var over := EmitBranch(Jump, 1 + |no|) + (EmitPlain(Pop) + no);
    assert front + EmitBranch(Jump, 1 + |no|) + (EmitPlain(Pop) + no) == front + over;
    assert front + over == c + (test + (skip + (EmitPlain(Pop) + (yes + over))));
  }

  /** The code in front of a loop's increment or body, with the exit still open. */
  function OpenTest(test: Option<seq<Byte>>): seq<Byte> {
    if test.Some? then test.value + Hole(JumpIfFalse) + EmitPlain(Pop) else []
  }

  function IncrPart(test: Option<seq<Byte>>, incr: Option<seq<Byte>>): seq<Byte> {
    if incr.Some? then
      EmitBranch(Jump, |incr.value| + 4) + incr.value + EmitPlain(Pop) + EmitBranch(Loop,
          TestSize(test) + IncrSize(incr))
    else []
  }

  /** Patching the exit of a loop completes it. */
  lemma LoopAssembled(c: seq<Byte>, test: Option<seq<Byte>>, incr: Option<seq<Byte>>, body: seq<Byte>)
    ensures var code := c + OpenTest(test) + IncrPart(test, incr) + body + EmitBranch(Loop, BodyBack(test, incr, body));
      if test.None? then code == c + LoopBytes(test, incr, body)
      else
        && |code| >= |c| + |test.value| + 3
        && Patched(code, |c| + |test.value| + 1, |code| - (|c| + |test.value| + 3)) + EmitPlain(Pop) ==
          c + LoopBytes(test, incr, body)
  {
    hide EmitPlain, EmitBranch, Patched, LoopBytes, IncrBytes;
    var inner := IncrPart(test, incr) + body + EmitBranch(Loop, BodyBack(test, incr, body));
    IncrAssembled(test, incr, body);
    var code := c + OpenTest(test) + IncrPart(test, incr) + body + EmitBranch(Loop, BodyBack(test, incr, body));
    assert code == c + OpenTest(test) + inner;
    if test.Some? {
      ExitAssembled(c, test.value, incr, body, inner);
    } else {
      NoTest(c, incr, body);
    }
  }

  lemma OpenSizes(test: Option<seq<Byte>>, incr: Option<seq<Byte>>)
    ensures |OpenTest(test)| == TestSize(test) && |IncrPart(test, incr)| == IncrSize(incr)
  {
  }

  lemma OpenWhile(c: seq<Byte>, test: seq<Byte>)
    ensures c + test + Hole(JumpIfFalse) + EmitPlain(Pop) == c + OpenTest(Some(test)) + IncrPart(Some(test), None)
  {
    hide EmitPlain, EmitBranch;
  }

  lemma LoopNeedsTest(st: State, c: Expr, rest: seq<Token>)
    requires Settled(st.scope) && GenExpr(c, st.scope).Rejected?
    ensures LoopStep(st.code, st.scope, Some(c), None, rest) == None
  {
    hide GenExpr, GenStmt, P.Statement, Settled;
  }

  lemma OpenFor(c: seq<Byte>, test: seq<Byte>)
    ensures c + test + Hole(JumpIfFalse) + [OP_POP] == c + OpenTest(Some(test))
  {
  }

  lemma NoIncr(test: Option<seq<Byte>>)
    ensures IncrPart(test, None) == []
  {
  }

  lemma IncrClosed(c: seq<Byte>, test: Option<seq<Byte>>, incr: seq<Byte>)
    ensures var back := EmitBranch(Loop, TestSize(test) + IncrSize(Some(incr)));
      Patched(c + Hole(Jump) + incr + EmitPlain(Pop) + back, |c| + 1, |incr| + 4) == c + IncrPart(test, Some(incr))
  {
    hide EmitPlain, EmitBranch, Patched;
    var back := EmitBranch(Loop, TestSize(test) + IncrSize(Some(incr)));
    var tail := incr + EmitPlain(Pop) + back;
    assert c + Hole(Jump) + incr + EmitPlain(Pop) + back == c + Hole(Jump) + tail;
    PatchFills(c, Jump, tail, |incr| + 4);
    assert c + EmitBranch(Jump, |incr| + 4) + tail == c + IncrPart(test, Some(incr));
  }

  lemma NoTest(c: seq<Byte>, incr: Option<seq<Byte>>, body: seq<Byte>)
    ensures c + OpenTest(None) + IncrBytes(None, incr, body) == c + LoopBytes(None, incr, body)
  {
  }

  lemma IncrAssembled(test: Option<seq<Byte>>, incr: Option<seq<Byte>>, body: seq<Byte>)
    ensures IncrPart(test, incr) + body + EmitBranch(Loop, BodyBack(test, incr, body)) == IncrBytes(test, incr, body)
  {
    hide EmitPlain, EmitBranch;
  }

  lemma ExitAssembled(c: seq<Byte>, test: seq<Byte>, incr: Option<seq<Byte>>, body: seq<Byte>, inner: seq<Byte>)
    requires inner == IncrBytes(Some(test), incr, body)
    ensures var code := c + OpenTest(Some(test)) + inner;
      Patched(code, |c| + |test| + 1, |code| - (|c| + |test| + 3)) + EmitPlain(Pop) == c + LoopBytes(Some(test), incr,
          body)
  {
    hide EmitPlain, EmitBranch, Patched, IncrBytes;
    var a := c + test;
    var tail := EmitPlain(Pop) + inner;
    assert c + OpenTest(Some(test)) + inner == a + Hole(JumpIfFalse) + tail;
    PatchFills(a, JumpIfFalse, tail, |tail|);
    var exit := EmitBranch(JumpIfFalse, |tail|);
    assert a + exit + tail + EmitPlain(Pop) == c + (test + (exit + (EmitPlain(Pop) + (inner + EmitPlain(Pop)))));
  }

  class Compiler {
    const tokens: seq<Token>
    var pos: nat
    var hadError: bool
    var code: seq<Byte>
    var constants: seq<Value>
    var globals: seq<Global>
    var locals: seq<Local>
    var scopeDepth: nat
    ghost var narrowed: bool

    ghost predicate Valid()
      reads this
    {
      pos <= |tokens| && TEof !in tokens
    }

    ghost function Sc(): Scope
      reads this
    {
      Scope(constants, globals, locals, scopeDepth, narrowed)
    }

    ghost function Rest(): seq<Token>
      requires Valid()
      reads this
    {
      tokens[pos..]
    }

    ghost function Now(): State
      requires Valid()
      reads this
    {
      State(Rest(), code, Sc())
    }

    /** The observable state: all of it, or only that there was an error. */
    ghost function Result(): Option<State>
      requires Valid()
      reads this
    {
      if hadError then None else Some(Now())
    }

    /** `tokens` are those in front of the end of the file. */
    constructor (tokens: seq<Token>, globals: seq<Global>)
      requires TEof !in tokens
      ensures Valid() && !hadError && this.tokens == tokens && pos == 0 && code == []
      ensures Sc() == ScriptScope(globals)
    {
      this.tokens := tokens;
      pos, hadError := 0, false;
      code, constants, this.globals := [], [], globals;
      locals, scopeDepth := [Local("this", 0, true)], 0;
      narrowed := false;
    }

    // ----- tokens -----

    function Current(): (t: Token)
      requires Valid()
      reads this
      ensures t == P.Peek(Rest())
    {
      if pos < |tokens| then tokens[pos] else TEof
    }

    /** The scanner repeats the end of file, so the cursor stays there. */
    method Advance()
      requires Valid()
      modifies this`pos
      ensures Valid() && Rest() == if old(Rest()) == [] then [] else old(Rest())[1..]
    {
      if pos < |tokens| {
        pos := pos + 1;
      }
    }

    method Match(t: Token) returns (found: bool)
      requires Valid() && t != TEof
      modifies this`pos
      ensures Valid()
      ensures found == (old(Rest()) != [] && old(Rest())[0] == t)
      ensures Rest() == if found then old(Rest())[1..] else old(Rest())
    {
      found := Current() == t;
      if found {
        Advance();
      }
    }

    method Consume(t: Token)
      requires Valid() && t != TEof && !hadError
      modifies this`pos, this`hadError
      ensures Valid()
      ensures var e := P.Expect(t, old(Rest()));
        hadError == e.Fail? && Rest() == if e.Got? then e.rest else old(Rest())
    {
      var found := Match(t);
      hadError := !found;
    }

    // ----- emission -----

    method EmitByte(b: Byte)
      requires Valid()
      modifies this`code
      ensures code == old(code) + [b]
    {
      code := code + [b];
    }

    /** A jump with a placeholder for its distance; returns where the placeholder is. */
    method EmitJump(j: Jumping) returns (at: nat)
      requires Valid()
      modifies this`code
      ensures code == old(code) + Hole(j) && at == |old(code)| + 1
    {
      EmitByte(BranchByte(j));
      EmitByte(255);
      EmitByte(255);
      at := |code| - 2;
    }

    method PatchJump(at: nat)
      requires Valid() && at + 2 <= |code| && !hadError
      modifies this`code, this`hadError
      ensures hadError == !Reach(|old(code)| - at - 2)
      ensures code == Patched(old(code), at, |old(code)| - at - 2)
    {
      var jump := |code| - at - 2;
      if jump > 65535 {
        hadError := true;
      }
      code := code[at := jump / 256 % 256];
      code := code[at + 1 := jump % 256];
    }

    method EmitLoop(loopStart: nat)
      requires Valid() && loopStart <= |code| && !hadError
      modifies this`code, this`hadError
      ensures var dist := |old(code)| - loopStart + 3;
        hadError == !Reach(dist) && code == old(code) + EmitBranch(Loop, dist)
    {
      EmitByte(OP_LOOP);
      var offset := |code| - loopStart + 2;
      if offset > 65535 {
        hadError := true;
      }
      EmitByte(offset / 256 % 256);
      EmitByte(offset % 256);
    }

    /** An instruction with an address, in its short or long form. */
    method EmitConstant(a: Addressed, addr: nat)
      requires Valid()
      modifies this`code, this`narrowed
      ensures var g := EmitAt(a, addr, old(Sc()));
        code == old(code) + g.bytes && Sc() == g.scope
    {
      if addr > 255 {
        EmitByte(LongByte(a));
        EmitByte(addr / 65536 % 256);
        EmitByte(addr / 256 % 256);
        EmitByte(addr % 256);
      } else {
        EmitByte(ShortByte(a));
        EmitByte(addr);
      }
      narrowed := narrowed || !FitsOperand(a, addr);
    }

    method Constant(v: Value)
      requires Valid()
      modifies this`code, this`narrowed, this`constants
      ensures var g := GenConstant(v, old(Sc()));
        code == old(code) + g.bytes && Sc() == g.scope
    {
      constants := constants + [v];
      EmitConstant(Addressed.Constant, |constants| - 1);
    }

    // ----- expressions -----

    method ParsePrecedence(p: nat)
      requires Valid() && !hadError && p >= PREC_ASSIGNMENT
      modifies this
      ensures Valid() && Result() == ExprStep(old(Now()), P.ParsePrecedence(old(Rest()), p))
      decreases |tokens| - pos, 2
    {
      hide GenExpr, P.ParsePrecedence, P.Prefix, P.Infixes, P.Infix, InfixStep, Grows, InfixPrec, Keeps, SameShape;
      ghost var st := Now();
      var canAssign := p <= PREC_ASSIGNMENT;
      ParseUnfolds(st.rest, p);
      ghost var prefix := P.Prefix(st.rest, canAssign);
      if prefix.Got? && GenExpr(prefix.tree, st.scope).Rejected? {
        RejectedStays(prefix.tree, prefix.rest, p, st.scope);
      }
      Prefix(canAssign);
      if hadError { return; }
      ghost var left := prefix.tree;
      while p <= InfixPrec(Current())
        invariant Valid() && !hadError && |Rest()| < |st.rest|
        invariant P.ParsePrecedence(st.rest, p) == P.Infixes(left, Rest(), p)
        invariant Append(st, Rest(), GenExpr(left, st.scope)) == Some(Now())
        decreases |tokens| - pos
      {
        ghost var st1 := Now();
        NotAtEnd(st1.rest);
        Infix();
        InfixDone(left, st, st1, p);
        if hadError { return; }
        left := P.Infix(left, st1.rest).tree;
      }
      InfixesEnd(left, Rest(), p);
      if canAssign {
        var found := Match(TEqual);
        hadError := found;
      }
    }

    method Prefix(canAssign: bool)
      requires Valid() && !hadError
      modifies this
      ensures Valid() && Result() == ExprStep(old(Now()), P.Prefix(old(Rest()), canAssign))
      ensures !hadError ==> |Rest()| < |old(Rest())|
      decreases |tokens| - pos, 0
    {
      hide P.ParsePrecedence, GenExpr;
      ghost var st := Now();
      var t := Current();
      PrefixCases(st.rest, canAssign);
      Advance();
      if LiteralOf(t).Some? {
        Literal(t);
      } else if t.TIdentifier? {
        NamedVariable(t.name, canAssign);
      } else if t == TLeftParen {
        Grouping();
      } else if t == TOp(Minus) || t == TBang {
        Unary(if t == TBang then UnaryOp.Not else UnaryOp.Negate);
      } else {
        hadError := true;
      }
    }

    /** literal, number and string. */
    method Literal(t: Token)
      requires Valid() && !hadError && LiteralOf(t).Some?
      modifies this
      ensures Valid()
      ensures Result() == Append(old(Now()), old(Rest()), GenExpr(LiteralOf(t).value, old(Sc())))
    {
      match t
      case TNil => EmitByte(OP_NIL);
      case TTrue => EmitByte(OP_TRUE);
      case TFalse => EmitByte(OP_FALSE);
      case TNumber(n) => Constant(Number(n));
      case TString(s) => Constant(Str(s));
    }

    /** ( expression ) */
    method Grouping()
      requires Valid() && !hadError
      modifies this
      ensures Valid()
      ensures Result() ==
        match P.ParsePrecedence(old(Rest()), PREC_ASSIGNMENT)
        case Fail => None
        case Got(e, rest) =>
          if P.Expect(TRightParen, rest).Fail? then None
          else Append(old(Now()), P.Expect(TRightParen, rest).rest, GenExpr(Group(e), old(Sc())))
      decreases |tokens| - pos, 3
    {
      hide P.ParsePrecedence, GenExpr;
      ghost var e := P.ParsePrecedence(Rest(), PREC_ASSIGNMENT);
      if e.Got? {
        GroupGen(e.tree, Sc());
      }
      ParsePrecedence(PREC_ASSIGNMENT);
      if !hadError {
        Consume(TRightParen);
      }
    }

    method Unary(op: UnaryOp)
      requires Valid() && !hadError
      modifies this
      ensures Valid()
      ensures Result() ==
        match P.ParsePrecedence(old(Rest()), PREC_UNARY)
        case Fail => None
        case Got(e, rest) => Append(old(Now()), rest, GenExpr(Expr.Unary(op, e), old(Sc())))
      decreases |tokens| - pos, 3
    {
      hide GenExpr, P.ParsePrecedence;
      ghost var st := Now();
      ghost var e := P.ParsePrecedence(st.rest, PREC_UNARY);
      if e.Got? {
        UnaryGen(op, e.tree, st.scope);
      }
      ParsePrecedence(PREC_UNARY);
      if !hadError {
        ghost var g := GenExpr(e.tree, st.scope);
        AppendMore(st, e.rest, g, e.rest, EmitPlain(UnarySimple(op)), g.scope);
        var b := if op == UnaryOp.Not then OP_NOT else OP_NEGATE;
        assert EmitPlain(UnarySimple(op)) == [b];
        EmitByte(b);
      }
    }

    /** Resolves a name; for a global also makes its address. An error inside a local's own
        initializer. */
    method ResolveName(x: string) returns (isLocal: bool, addr: nat, readonly: bool)
      requires Valid() && !hadError
      modifies this`hadError, this`globals
      ensures Valid()
      ensures match Resolve(old(Sc()), x)
        case None => hadError
        case Some(p) => !hadError && p == Place(isLocal, addr, readonly, Sc())
    {
      isLocal, addr, readonly := false, 0, false;
      match ResolveLocal(locals, x)
      case Some(i) =>
        isLocal, addr, readonly := true, i, locals[i].readonly;
        if locals[i].depth == -1 {
          hadError := true;
        }
      case None =>
        var r := MakeGlobal(globals, x);
        globals, addr := r.0, r.1;
        readonly := globals[addr].readonly;
    }

    method NamedVariable(x: Name, canAssign: bool)
      requires Valid() && !hadError
      modifies this
      ensures Valid()
      ensures Result() ==
        if canAssign && P.Peek(old(Rest())) == TEqual then
          match P.ParsePrecedence(old(Rest())[1..], PREC_ASSIGNMENT)
          case Fail => None
          case Got(e, rest) => Append(old(Now()), rest, GenExpr(Assign(x, e), old(Sc())))
        else Append(old(Now()), old(Rest()), GenExpr(Var(x), old(Sc())))
      decreases |tokens| - pos, 3
    {
      hide GenExpr, P.ParsePrecedence, EmitAt, Resolve;
      ghost var st := Now();
      VarGen(x, st.scope);
      if canAssign && P.Peek(st.rest) == TEqual {
        ghost var parsed := P.ParsePrecedence(st.rest[1..], PREC_ASSIGNMENT);
        if parsed.Got? {
          AssignGen(x, parsed.tree, st.scope);
        }
      }
      var isLocal, addr, readonly := ResolveName(x);
      if hadError { return; }
      var assigns := false;
      if canAssign {
        assigns := Match(TEqual);
      }
      if assigns {
        if readonly {
          hadError := true;
          return;
        }
        ghost var st1 := Now();
        ParsePrecedence(PREC_ASSIGNMENT);
        if !hadError {
          ghost var e := P.ParsePrecedence(st1.rest, PREC_ASSIGNMENT);
          ghost var g := GenExpr(e.tree, st1.scope);
          ghost var store := EmitAt(if isLocal then SetLocal else SetGlobal, addr, g.scope);
          AppendMore(st, e.rest, g, e.rest, store.bytes, store.scope);
          EmitConstant(if isLocal then SetLocal else SetGlobal, addr);
        }
      } else {
        EmitConstant(if isLocal then GetLocal else GetGlobal, addr);
      }
    }

    /** and_, or_ or binary, after their operator. */
    method Infix()
      requires Valid() && !hadError && Rest() != []
      modifies this
      ensures Valid() && Result() == InfixStep(old(Now()))
      ensures !hadError ==> |Rest()| < |old(Rest())|
      decreases |tokens| - pos, 0
    {
      var t := Current();
      Advance();
      if t == TAnd {
        And_();
      } else if t == TOr {
        Or_();
      } else if t.TOp? {
        BinaryRule(t.op);
      } else {
        hadError := true;
      }
    }

    method BinaryRule(op: BinaryOp)
      requires Valid() && !hadError
      modifies this
      ensures Valid() && Result() == OperandStep(old(Now()), TOp(op))
      decreases |tokens| - pos, 3
    {
      hide GenExpr, P.ParsePrecedence;
      ghost var st := Now();
      ParsePrecedence(OpPrec(op) + 1);
      if !hadError {
        ghost var e := P.ParsePrecedence(st.rest, OpPrec(op) + 1);
        ghost var g := GenExpr(e.tree, st.scope);
        AppendMore(st, e.rest, g, e.rest, EmitPlain(BinarySimple(op)), g.scope);
        EmitByte(SimpleByte(BinarySimple(op)));
      }
    }

    method And_()
      requires Valid() && !hadError
      modifies this
      ensures Valid() && Result() == OperandStep(old(Now()), TAnd)
      decreases |tokens| - pos, 3
    {
      hide GenExpr, P.ParsePrecedence;
      ghost var st := Now();
      var endJump := EmitJump(JumpIfFalse);
      EmitByte(OP_POP);
      ParsePrecedence(PREC_AND);
      if hadError { return; }
      ghost var right := GenExpr(P.ParsePrecedence(st.rest, PREC_AND).tree, st.scope).bytes;
      HoleTail(st.code, JumpIfFalse, right);
      PatchJump(endJump);
    }

    method Or_()
      requires Valid() && !hadError
      modifies this
      ensures Valid() && Result() == OperandStep(old(Now()), TOr)
      decreases |tokens| - pos, 3
    {
      hide GenExpr, P.ParsePrecedence;
      ghost var st := Now();
      var elseJump := EmitJump(JumpIfFalse);
      var endJump := EmitJump(Jump);
      PatchFills(st.code, JumpIfFalse, Hole(Jump), 3);
      PatchJump(elseJump);
      EmitByte(OP_POP);
      ParsePrecedence(PREC_OR);
      if hadError { return; }
      ghost var right := GenExpr(P.ParsePrecedence(st.rest, PREC_OR).tree, st.scope).bytes;
      ghost var skip := EmitBranch(JumpIfFalse, 3);
      HoleTail(st.code + skip, Jump, right);
      Regroup(st.code, skip, EmitBranch(Jump, 1 + |right|) + (EmitPlain(Pop) + right));
      PatchJump(endJump);
    }

    // ----- statements -----

    method ExpressionStatement()
      requires Valid() && !hadError && Settled(Sc())
      modifies this
      ensures Valid() && Result() ==
        StmtStep(old(Now()), Mapped(P.ExpressionThen(TSemicolon, old(Rest())), e => ExprStmt(e)))
      decreases |tokens| - pos, 3
    {
      hide GenExpr, GenStmt, P.ParsePrecedence, Settled, Grows, Keeps;
      ghost var st := Now();
      ExprStmtGen(st, P.ExpressionThen(TSemicolon, st.rest));
      ParsePrecedence(PREC_ASSIGNMENT);
      if hadError { return; }
      Consume(TSemicolon);
      if hadError { return; }
      EmitByte(OP_POP);
    }

    method PrintStatement()
      requires Valid() && !hadError && Settled(Sc())
      modifies this
      ensures Valid() && Result() ==
        StmtStep(old(Now()), Mapped(P.ExpressionThen(TSemicolon, old(Rest())), e => Stmt.Print(e)))
      decreases |tokens| - pos, 3
    {
      hide GenExpr, GenStmt, P.ParsePrecedence, Settled, Grows, Keeps;
      ghost var st := Now();
      PrintGen(st, P.ExpressionThen(TSemicolon, st.rest));
      ParsePrecedence(PREC_ASSIGNMENT);
      if hadError { return; }
      Consume(TSemicolon);
      if hadError { return; }
      EmitByte(OP_PRINT);
    }

    method BeginScope()
      requires Valid()
      modifies this`scopeDepth
      ensures Valid() && Sc() == Codegen.BeginScope(old(Sc()))
    {
      scopeDepth := scopeDepth + 1;
    }

    /** Forgets the locals of the innermost scope, with an instruction to pop each. */
    method EndScope()
      requires Valid() && scopeDepth > 0
      modifies this`scopeDepth, this`locals, this`code
      ensures Valid()
      ensures var g := Codegen.EndScope(old(Sc())); code == old(code) + g.bytes && Sc() == g.scope
    {
      hide Outer, Pops, EmitPlain, Grows, Settled;
      scopeDepth := scopeDepth - 1;
      ghost var before := locals;
      assert code == code + Pops(0) by { NoPops(code); }
      while locals != [] && locals[|locals| - 1].depth > scopeDepth
        invariant scopeDepth == old(scopeDepth) - 1
        invariant |locals| <= |before| && Outer(locals, scopeDepth) == Outer(before, scopeDepth)
        invariant code == old(code) + Pops(|before| - |locals|)
      {
        ghost var n := |before| - |locals|;
        OuterStep(locals, scopeDepth);
        locals := locals[..|locals| - 1];
        EmitByte(OP_POP);
        PopsAtEnd(n);
        PopIsByte();
        Regroup(old(code), Pops(n), [OP_POP]);
      }
      OuterStep(locals, scopeDepth);
    }

    method DeclareVariable(x: string) returns (addr: nat)
      requires Valid() && !hadError && scopeDepth > 0
      modifies this`hadError, this`locals
      ensures Valid()
      ensures match DeclareLocal(old(Sc()), x)
        case None => hadError
        case Some(sc) => !hadError && Sc() == sc && addr == AddedAddress(old(locals), x)
    {
      var slot := ResolveLocal(locals, x);
      addr := |locals|;
      if slot.Some? {
        addr := slot.value;
        if locals[slot.value].depth == scopeDepth {
          hadError := true;
        }
      }
      locals := locals + [Local(x, -1, false)];
    }

    method DefineVariable(addr: nat, readonly: bool)
      requires Valid() && addr < (if scopeDepth > 0 then |locals| else |globals|)
      modifies this`locals, this`globals, this`code, this`narrowed
      ensures Valid()
      ensures old(scopeDepth) > 0 ==> code == old(code) && Sc() == DefineLocal(old(Sc()), addr, readonly)
      ensures old(scopeDepth) == 0 ==>
        var g := EmitAt(DefineGlobal, addr, Marked(old(Sc()), addr, readonly));
        code == old(code) + g.bytes && Sc() == g.scope
    {
      if scopeDepth > 0 {
        var last := |locals| - 1;
        locals := locals[last := locals[last].(depth := scopeDepth)];
        locals := locals[addr := locals[addr].(readonly := readonly)];
      } else {
        globals := globals[addr := globals[addr].(readonly := readonly)];
        EmitConstant(Addressed.DefineGlobal, addr);
      }
    }

    /** The initializer of a declaration, or nil, and the semicolon. */
    method Initializer()
      requires Valid() && !hadError
      modifies this
      ensures Valid()
      ensures Result() ==
        var init := InitOf(old(Rest()));
        if init.Got? then Append(old(Now()), init.rest, GenInit(init.tree, old(Sc()))) else None
      decreases |tokens| - pos, 3
    {
      hide GenExpr, P.ParsePrecedence, Grows;
      var hasInit := Match(TEqual);
      if hasInit {
        ParsePrecedence(PREC_ASSIGNMENT);
        if hadError { return; }
      } else {
        EmitByte(OP_NIL);
      }
      Consume(TSemicolon);
    }

    method VarDeclaration(readonly: bool)
      requires Valid() && !hadError && Settled(Sc())
      modifies this
      ensures Valid() && Result() == StmtStep(old(Now()), P.VarDeclaration(readonly, old(Rest())))
      decreases |tokens| - pos, 3
    {
      hide P.VarDeclaration, GenInit, InitOf, Settled, EmitAt, DefineLocal, ResolveLocal, AddedAddress;
      ghost var st := Now();
      var t := Current();
      if !t.TIdentifier? {
        hadError := true;
        NoName(st.rest, readonly);
        return;
      }
      VarCases(st, readonly);
      Advance();
      var addr := 0;
      if scopeDepth > 0 {
        addr := DeclareVariable(t.name);
        if hadError { return; }
      } else {
        var r := MakeGlobal(globals, t.name);
        globals, addr := r.0, r.1;
      }
      Initializer();
      if hadError { return; }
      DefineVariable(addr, readonly);
    }

    method Declaration()
      requires Valid() && !hadError && Settled(Sc())
      modifies this
      ensures Valid() && Result() == StmtStep(old(Now()), P.Declaration(old(Rest())))
      ensures !hadError ==> |Rest()| < |old(Rest())|
      decreases |tokens| - pos, 2
    {
      hide GenStmt, P.Statement, P.VarDeclaration, Settled;
      var t := Current();
      if t == TVar || t == TConst {
        Advance();
        VarDeclaration(t == TConst);
      } else {
        Statement();
      }
    }

    method Statement()
      requires Valid() && !hadError && Settled(Sc())
      modifies this
      ensures Valid() && Result() == StmtStep(old(Now()), P.Statement(old(Rest())))
      ensures !hadError ==> |Rest()| < |old(Rest())|
      decreases |tokens| - pos, 0
    {
      hide GenStmt, P.ForStatement, P.IfStatement, P.WhileStatement, P.BlockRest, P.ExpressionThen, Settled;
      var t := Current();
      if t == TPrint {
        Advance();
        PrintStatement();
      } else if t == TFor {
        Advance();
        ForStatement();
      } else if t == TIf {
        Advance();
        IfStatement();
      } else if t == TWhile {
        Advance();
        WhileStatement();
      } else if t == TLeftBrace {
        Advance();
        BlockStatement();
      } else {
        ExpressionStatement();
      }
    }

    /** Declarations up to the closing brace. */
    method Block()
      requires Valid() && !hadError && Settled(Sc())
      modifies this
      ensures Valid() && Result() == BlockStep(old(Now()))
      decreases |tokens| - pos, 3
    {
      hide GenStmt, GenStmts, BlockStep, StmtStep, Settled;
      ghost var st := Now();
      while Current() != TRightBrace && Current() != TEof
        invariant Valid() && !hadError && Settled(Sc()) && |Rest()| <= |st.rest|
        invariant BlockStep(st) == BlockStep(Now())
        decreases |tokens| - pos
      {
        BlockUnfolds(Now());
        StepSettled(Now(), P.Declaration(Rest()));
        Declaration();
        if hadError { return; }
      }
      BlockEnds(Now());
      Consume(TRightBrace);
    }

    method BlockStatement()
      requires Valid() && !hadError && Settled(Sc())
      modifies this
      ensures Valid() && Result() == StmtStep(old(Now()), Mapped(P.BlockRest(old(Rest())), ss => Stmt.Block(ss)))
      decreases |tokens| - pos, 4
    {
      hide GenStmts, Settled, Codegen.EndScope, P.BlockRest;
      ghost var st := Now();
      BlockGen(st);
      BeginScope();
      Block();
      if hadError { return; }
      EndScope();
    }

    method Parenthesized()
      requires Valid() && !hadError
      modifies this
      ensures Valid() && Result() == ExprStep(old(Now()), Condition(old(Rest())))
      ensures !hadError ==> |Rest()| < |old(Rest())|
      decreases |tokens| - pos, 3
    {
      hide GenExpr, P.ParsePrecedence;
      Consume(TLeftParen);
      if hadError { return; }
      ParsePrecedence(PREC_ASSIGNMENT);
      if hadError { return; }
      Consume(TRightParen);
    }

    method OptionalElse()
      requires Valid() && !hadError && Settled(Sc())
      modifies this
      ensures Valid() && Result() == OptStep(old(Now()), ElseBranch(old(Rest())))
      decreases |tokens| - pos, 3
    {
      hide GenStmt, P.Statement, Settled;
      ghost var st := Now();
      var hasElse := Match(TElse);
      if hasElse {
        Statement();
      } else {
        assert st.code + [] == st.code;
      }
    }

    method IfStatement()
      requires Valid() && !hadError && Settled(Sc())
      modifies this
      ensures Valid() && Result() == StmtStep(old(Now()), P.IfStatement(old(Rest())))
      decreases |tokens| - pos, 4
    {
      hide GenExpr, GenStmt, GenOptional, Condition, ElseBranch, P.Statement, P.IfStatement, Settled, EmitPlain,
          EmitBranch, Patched, IfBytes, Keeps, SameShape, OneAddress, Grows;
      ghost var st := Now();
      IfCases(st);
      PopIsByte();
      Parenthesized();
      if hadError { return; }
      ghost var test := GenExpr(Condition(st.rest).tree, st.scope);
      AfterExpr(st.scope, test.scope);
      ghost var st1 := Now();
      var thenJump := EmitJump(JumpIfFalse);
      EmitByte(OP_POP);
      Statement();
      if hadError { return; }
      ghost var yes := GenStmt(P.Statement(st1.rest).tree, test.scope);
      ghost var st2 := Now();
      var elseJump := EmitJump(Jump);
      PatchJump(thenJump);
      if hadError {
        return;
      }
      EmitByte(OP_POP);
      OptionalElse();
      if hadError { return; }
      ghost var no := GenOptional(ElseBranch(st2.rest).tree, yes.scope);
      IfAssembled(st.code, test.bytes, yes.bytes, no.bytes);
      PatchJump(elseJump);
    }

    /** The body of a loop and the jump back: c is the code in front of the loop, and the
        code so far is c, the open test and the increment. */
    method LoopBody(ghost c: seq<Byte>, ghost cond: Option<Expr>, ghost incr: Option<Expr>, ghost sc: Scope,
        start: nat, exitJump: Option<nat>)
      requires Valid() && !hadError && Settled(sc)
      requires GenOpt(cond, sc).Code? && GenOpt(incr, GenOpt(cond, sc).scope).Code?
      requires var test := GenOpt(cond, sc); var step := GenOpt(incr, test.scope);
        var t := Part(cond, test.bytes); var i := Part(incr, step.bytes);
        && Sc() == step.scope && Settled(step.scope)
        && code == c + OpenTest(t) + IncrPart(t, i)
        && start == (if incr.Some? then |c| + TestSize(t) + 3 else |c|)
        && exitJump == (if cond.Some? then Some(|c| + |test.bytes| + 1) else None)
        && (incr.Some? ==> Reach(|step.bytes| + 1 + 3) && Reach(TestSize(t) + IncrSize(i)))
      modifies this
      ensures Valid()
      ensures Result() == LoopStep(c, sc, cond, incr, old(Rest()))
      decreases |tokens| - pos, 2
    {
      hide GenExpr, GenStmt, GenOpt, GenLoop, P.Statement, Settled, EmitPlain, EmitBranch, Patched, LoopBytes,
          OpenTest, IncrPart, Grows, Keeps, SameShape;
      ghost var st := Now();
      ghost var test := GenOpt(cond, sc);
      ghost var step := GenOpt(incr, test.scope);
      ghost var t := Part(cond, test.bytes);
      ghost var i := Part(incr, step.bytes);
      ghost var loop := P.Statement(st.rest);
      if loop.Got? {
        LoopCases(cond, incr, loop.tree, sc);
      }
      OpenSizes(t, i);
      Statement();
      if hadError { return; }
      ghost var body := GenStmt(loop.tree, step.scope).bytes;
      EmitLoop(start);
      if hadError { return; }
      LoopAssembled(c, t, i, body);
      PopIsByte();
      if exitJump.Some? {
        PatchJump(exitJump.value);
        if hadError { return; }
        EmitByte(OP_POP);
      }
    }

    method WhileStatement()
      requires Valid() && !hadError && Settled(Sc())
      modifies this
      ensures Valid() && Result() == StmtStep(old(Now()), P.WhileStatement(old(Rest())))
      decreases |tokens| - pos, 4
    {
      hide GenExpr, GenLoop, Condition, P.Statement, P.WhileStatement, Settled, EmitPlain, EmitBranch, Grows, Keeps,
          SameShape;
      ghost var st := Now();
      WhileCases(st);
      PopIsByte();
      ghost var c := Condition(st.rest);
      if c.Got? && GenExpr(c.tree, st.scope).Rejected? {
        LoopNeedsTest(st, c.tree, c.rest);
      }
      var loopStart := |code|;
      Parenthesized();
      if hadError { return; }
      AfterExpr(st.scope, Sc());
      var exitJump := EmitJump(JumpIfFalse);
      EmitByte(OP_POP);
      OpenWhile(st.code, GenExpr(c.tree, st.scope).bytes);
      LoopBody(st.code, Some(c.tree), None, st.scope, loopStart, Some(exitJump));
    }

    method ForInitializer()
      requires Valid() && !hadError && Settled(Sc())
      modifies this
      ensures Valid() && Result() == OptStep(old(Now()), P.ForFirst(old(Rest())))
      ensures !hadError ==> |Rest()| < |old(Rest())|
      decreases |tokens| - pos, 2
    {
      hide GenStmt, P.VarDeclaration, P.ExpressionThen, Settled;
      var empty := Match(TSemicolon);
      if empty {
        assert code + [] == code;
      } else {
        var isVar := Match(TVar);
        if isVar {
          VarDeclaration(false);
        } else {
          ExpressionStatement();
        }
      }
    }

    /** The test of a `for` and its exit jump, if there is a test. */
    method ForTest() returns (exitJump: Option<nat>)
      requires Valid() && !hadError
      modifies this
      ensures Valid()
      ensures var c := P.OptExpressionThen(TSemicolon, old(Rest()));
        if c.Fail? || GenOpt(c.tree, old(Sc())).Rejected? then hadError
        else
          var g := GenOpt(c.tree, old(Sc()));
          && Result() == Some(State(c.rest, old(code) + OpenTest(Part(c.tree, g.bytes)), g.scope))
          && exitJump == if c.tree.Some? then Some(|old(code)| + |g.bytes| + 1) else None
      decreases |tokens| - pos, 4
    {
      hide GenExpr, P.ExpressionThen, Grows, OneAddress, EmitBranch, EmitPlain;
      exitJump := None;
      var empty := Match(TSemicolon);
      if empty {
        assert code + [] == code;
      } else {
        var at := TestClause();
        exitJump := Some(at);
      }
    }

    method TestClause() returns (exitJump: nat)
      requires Valid() && !hadError
      modifies this
      ensures Valid()
      ensures var c := P.ExpressionThen(TSemicolon, old(Rest()));
        if c.Fail? || GenExpr(c.tree, old(Sc())).Rejected? then hadError
        else
          var g := GenExpr(c.tree, old(Sc()));
          && Result() == Some(State(c.rest, old(code) + OpenTest(Some(g.bytes)), g.scope))
          && exitJump == |old(code)| + |g.bytes| + 1
      decreases |tokens| - pos, 3
    {
      hide GenExpr, P.ParsePrecedence, Grows, OneAddress, Hole, OpenTest;
      exitJump := 0;
      ghost var st := Now();
      ParsePrecedence(PREC_ASSIGNMENT);
      if hadError { return; }
      Consume(TSemicolon);
      if hadError { return; }
      exitJump := EmitJump(JumpIfFalse);
      EmitByte(OP_POP);
      OpenFor(st.code, GenExpr(P.ParsePrecedence(st.rest, PREC_ASSIGNMENT).tree, st.scope).bytes);
    }

    /** The increment of a `for`, which is emitted here with a jump around it; returns where
        the body jumps back to. */
    method ForIncrement(loopStart: nat, ghost t: Option<seq<Byte>>) returns (start: nat)
      requires Valid() && !hadError && loopStart + TestSize(t) == |code|
      modifies this
      ensures Valid()
      ensures var c := P.OptExpressionThen(TRightParen, old(Rest()));
        if c.Fail? || GenOpt(c.tree, old(Sc())).Rejected? then hadError
        else
          var g := GenOpt(c.tree, old(Sc()));
          var i := Part(c.tree, g.bytes);
          if c.tree.Some? && !(Reach(|g.bytes| + 1 + 3) && Reach(TestSize(t) + IncrSize(i))) then hadError
          else
            && Result() == Some(State(c.rest, old(code) + IncrPart(t, i), g.scope))
            && start == if c.tree.Some? then |old(code)| + 3 else loopStart
      decreases |tokens| - pos, 4
    {
      hide GenExpr, P.ExpressionThen, Grows, OneAddress, IncrPart;
      start := loopStart;
      NoIncr(t);
      var empty := Match(TRightParen);
      if empty {
        assert code + [] == code;
      } else {
        start := IncrementClause(loopStart, t);
      }
    }

    method IncrementClause(loopStart: nat, ghost t: Option<seq<Byte>>) returns (start: nat)
      requires Valid() && !hadError && loopStart + TestSize(t) == |code|
      modifies this
      ensures Valid()
      ensures var c := P.ExpressionThen(TRightParen, old(Rest()));
        if c.Fail? || GenExpr(c.tree, old(Sc())).Rejected? then hadError
        else
          var g := GenExpr(c.tree, old(Sc()));
          var i := Some(g.bytes);
          if !(Reach(|g.bytes| + 1 + 3) && Reach(TestSize(t) + IncrSize(i))) then hadError
          else
            && Result() == Some(State(c.rest, old(code) + IncrPart(t, i), g.scope))
            && start == |old(code)| + 3
      decreases |tokens| - pos, 3
    {
      hide GenExpr, P.ParsePrecedence, EmitBranch, EmitPlain, Patched, Grows, OneAddress, IncrPart, Hole;
      ghost var st := Now();
      var bodyJump := EmitJump(Jump);
      start := |code|;
      ParsePrecedence(PREC_ASSIGNMENT);
      if hadError { return; }
      EmitByte(OP_POP);
      Consume(TRightParen);
      if hadError { return; }
      PopIsByte();
      CloseIncrement(st.code, t, GenExpr(P.ParsePrecedence(st.rest, PREC_ASSIGNMENT).tree, st.scope).bytes, loopStart,
          bodyJump);
    }

    /** The jump back to the test, and the patch of the jump around the increment. */
    method CloseIncrement(ghost c: seq<Byte>, ghost t: Option<seq<Byte>>, ghost incr: seq<Byte>, loopStart: nat,
        bodyJump: nat)
      requires Valid() && !hadError && loopStart + TestSize(t) == |c| && bodyJump == |c| + 1
      requires code == c + Hole(Jump) + incr + EmitPlain(Pop)
      modifies this`code, this`hadError
      ensures hadError == !(Reach(|incr| + 1 + 3) && Reach(TestSize(t) + IncrSize(Some(incr))))
      ensures !hadError ==> code == c + IncrPart(t, Some(incr))
    {
      hide EmitBranch, EmitPlain, Patched, IncrPart, Hole;
      EmitLoop(loopStart);
      if hadError { return; }
      IncrClosed(c, t, incr);
      PatchJump(bodyJump);
    }

    /** The test, the increment and the body of a `for`. */
    method ForClauses()
      requires Valid() && !hadError && Settled(Sc())
      modifies this
      ensures Valid() && Result() == ClausesStep(old(Now()))
      decreases |tokens| - pos, 5
    {
      hide GenExpr, GenOpt, GenStmt, GenLoop, P.OptExpressionThen, P.Statement, Settled, OpenTest, IncrPart, Keeps,
          SameShape, LoopStep, OneAddress, Reach;
      ghost var st := Now();
      ghost var cond := P.OptExpressionThen(TSemicolon, st.rest);
      ghost var incr := if cond.Got? then P.OptExpressionThen(TRightParen, cond.rest) else P.Fail;
      if incr.Got? && !HeaderCompiles(cond.tree, incr.tree, st.scope) {
        LoopRejected(st.code, st.scope, cond.tree, incr.tree, incr.rest);
      }
      var loopStart := |code|;
      var exitJump := ForTest();
      if hadError { return; }
      ghost var t := Part(cond.tree, GenOpt(cond.tree, st.scope).bytes);
      OpenSizes(t, None);
      var start := ForIncrement(loopStart, t);
      if hadError { return; }
      AfterExpr(st.scope, Sc());
      LoopBody(st.code, cond.tree, incr.tree, st.scope, start, exitJump);
    }

    method ForStatement()
      requires Valid() && !hadError && Settled(Sc())
      modifies this
      ensures Valid() && Result() == StmtStep(old(Now()), P.ForStatement(old(Rest())))
      decreases |tokens| - pos, 6
    {
      hide GenStmt, P.ForFirst, P.ForStatement, Settled, Codegen.EndScope, Grows, Keeps, SameShape, OptStep,
          ClausesStep, OneAddress;
      ghost var st := Now();
      ForCases(st);
      ScopeSettled(Sc());
      BeginScope();
      Consume(TLeftParen);
      if hadError { return; }
      FirstDepth(Now(), P.ForFirst(Rest()));
      ForInitializer();
      if hadError { return; }
      ForClauses();
      if hadError { return; }
      EndScope();
    }

    method EmitReturn()
      requires Valid()
      modifies this`code
      ensures code == old(code) + (EmitPlain(PushNil) + EmitPlain(Return))
    {
      EmitByte(OP_NIL);
      EmitByte(OP_RETURN);
    }

    /** compile(): the bytes and constants of a script that compiles, NULL otherwise. */
    method Compile() returns (r: Option<Chunk>)
      requires Valid() && !hadError && pos == 0 && code == [] && Sc() == ScriptScope(globals)
      modifies this
      ensures Valid()
      ensures var g := Script.Compiled(tokens, old(globals));
        && r == (if g.Code? then Some(Chunk(g.bytes, g.scope.constants)) else None)
        && (g.Code? ==> globals == g.scope.globals && narrowed == g.scope.narrowed)
    {
      hide GenStmt, GenStmts, StmtStep, ProgramStep, Settled, EmitPlain;
      ghost var st := Now();
      assert tokens[0..] == tokens;
      ScriptSettled(globals);
      while Current() != TEof
        invariant Valid() && !hadError && Settled(Sc())
        invariant ProgramStep(st) == ProgramStep(Now())
        decreases |tokens| - pos
      {
        ProgramUnfolds(Now());
        StepSettled(Now(), P.Declaration(Rest()));
        Declaration();
        if hadError {
          ProgramCompiled(tokens, old(globals));
          return None;
        }
      }
      ProgramEnds(Now());
      ProgramCompiled(tokens, old(globals));
      EmitReturn();
      r := Some(Chunk(code, constants));
    }
  }
}
