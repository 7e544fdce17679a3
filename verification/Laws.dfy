/** What the language means, told by laws: of storage, of calls, and of one construct by another. */
module Laws {
  import opened Options
  import opened Values
  import opened Machine
  import opened Syntax
  import opened Codegen
  import opened Correctness

  // ----- variables -----

  lemma SameLoc(a: Lval, b: Lval, box: nat)
    ensures LocOf(a, box) == LocOf(b, box) <==> a == b
  {
  }

  /** What a variable reads as. */
  function Reading(st: Store, lv: Lval, box: nat): Cell {
    match lv
    case GlobalVar(g) => if g < |st.globals| then st.globals[g] else None
    case LocalVar(x) => if box < |st.boxes| && x < |st.boxes[box]| then st.boxes[box][x] else None
  }

  /** A variable gives the value in its cell, and raises an exception if the cell is empty. */
  lemma VariableReads(p: Prog, lv: Lval, box: nat, st: Store, fuel: nat)
    ensures Eval(p, Var(lv), box, st, fuel) ==
      match Reading(st, lv, box)
      case None => ERaise(UninitializedValue, st)
      case Some(v) => EVal(v, st)
  {
  }

  /**
   * After an assignment its variable gives the value assigned, in its own frame, and every other variable of any frame
   * what it gave before; no frame has more or fewer variables.
   */
  lemma AssignmentReads(p: Prog, lv: Lval, e: Expr, box: nat, st: Store, fuel: nat, other: Lval, box1: nat)
    requires Eval(p, Assign(lv, e), box, st, fuel).EVal?
    ensures
      var r, r1 := Eval(p, e, box, st, fuel), Eval(p, Assign(lv, e), box, st, fuel);
      && r.EVal? && r1.v == r.v
      && Reading(r1.st, lv, box) == Some(r.v)
      && (other != lv || (lv.LocalVar? && box1 != box) ==> Reading(r1.st, other, box1) == Reading(r.st, other, box1))
      && |r1.st.globals| == |r.st.globals| && |r1.st.boxes| == |r.st.boxes|
      && Eval(p, Comma(Assign(lv, e), Var(lv)), box, st, fuel) == EVal(r.v, r1.st)
  {
    var r := Eval(p, e, box, st, fuel);
    WriteCells(r.st, LocOf(lv, box), r.v);
  }

  /** Without a place for its variable an assignment raises an exception, after its right side. */
  lemma AssignmentRaises(p: Prog, lv: Lval, e: Expr, box: nat, st: Store, fuel: nat)
    requires Eval(p, e, box, st, fuel).EVal?
    ensures
      var r := Eval(p, e, box, st, fuel);
      var has := match lv
        case GlobalVar(g) => g < |r.st.globals|
        case LocalVar(x) => box < |r.st.boxes| && x < |r.st.boxes[box]|;
      && (Eval(p, Assign(lv, e), box, st, fuel).EVal? <==> has)
      && (!has ==> Eval(p, Assign(lv, e), box, st, fuel) == ERaise(InvalidArrayBounds(r.v), r.st))
  {
  }

  /** A condition that is no boolean raises an exception, and nothing that depends on it is executed. */
  lemma ConditionRaises(p: Prog, t: Expr, a: Stmt, b: Stmt, y: Expr, n: Expr, box: nat, st: Store, fuel: nat)
    requires var c := Eval(p, t, box, st, fuel); c.EVal? && !c.v.Bool?
    ensures
      var c := Eval(p, t, box, st, fuel);
      var x := InvalidArgument(c.v);
      && Exec(p, IfElse(t, a, b), box, st, fuel) == SRaise(x, c.st) == Exec(p, If(t, a), box, st, fuel)
      && Eval(p, Quest(t, y, n), box, st, fuel) == ERaise(x, c.st)
      && (fuel > 0 ==> Exec(p, While(t, a), box, st, fuel) == SRaise(x, c.st))
  {
  }

  // ----- calls -----

  /**
   * In a function that is called, formal `i` is argument `i`, the other variables are empty, and globals and the
   * variables of other frames are what they were.
   */
  lemma FormalsRead(vs: seq<Value>, autos: nat, st: Store, lv: Lval, box: nat)
    ensures
      var st1 := Alloc(st, NewBox(vs, autos));
      && (lv.LocalVar? && lv.x < |vs| ==> Reading(st1, lv, |st.boxes|) == Some(vs[lv.x]))
      && (lv.LocalVar? && lv.x >= |vs| ==> Reading(st1, lv, |st.boxes|) == None)
      && (lv.GlobalVar? || box < |st.boxes| ==> Reading(st1, lv, box) == Reading(st, lv, box))
  {
    NewBoxCells(vs, autos);
    AllocCells(st, NewBox(vs, autos));
  }

  /** A call of a function that returns its formal `i` gives argument `i`. */
  lemma FormalReturned(p: Prog, f: nat, vs: seq<Value>, st: Store, fuel: nat, i: nat)
    requires f < |p.funs| && |vs| == p.funs[f].argc && fuel > 0 && i < |vs|
    requires p.funs[f].body == Return(Var(LocalVar(i)))
    ensures Apply(p, Func(f), vs, st, fuel) == EVal(vs[i], Alloc(st, NewBox(vs, p.funs[f].autos)))
  {
    var st1 := Alloc(st, NewBox(vs, p.funs[f].autos));
    FormalsRead(vs, p.funs[f].autos, st, LocalVar(i), 0);
    VariableReads(p, LocalVar(i), |st.boxes|, st1, fuel - 1);
  }

  /** The arguments are the values of their expressions, in their order, each after the one before it. */
  lemma {:induction false} ArgumentsInOrder(p: Prog, args: Exprs, box: nat, st: Store, fuel: nat, i: nat)
    returns (e: Expr, st1: Store)
    requires EvalArgs(p, args, box, st, fuel).AVals? && i < Length(args)
    ensures e == ArgAt(args, i) && Eval(p, e, box, st1, fuel).EVal?
    ensures EvalArgs(p, args, box, st, fuel).vs[i] == Eval(p, e, box, st1, fuel).v
    ensures i == 0 ==> st1 == st
    decreases args
  {
    if i == 0 {
      e, st1 := args.hd, st;
    } else {
      e, st1 := ArgumentsInOrder(p, args.tl, box, Eval(p, args.hd, box, st, fuel).st, fuel, i - 1);
    }
  }

  function ArgAt(args: Exprs, i: nat): Expr
    requires i < Length(args)
  {
    if i == 0 then args.hd else ArgAt(args.tl, i - 1)
  }

  /** What a call raises: the callee is no function, or takes another number of arguments. */
  lemma CallRaises(p: Prog, f: Value, vs: seq<Value>, st: Store, fuel: nat)
    ensures !(f.Func? && f.f < |p.funs|) ==> Apply(p, f, vs, st, fuel) == ERaise(InvalidUnop(f), st)
    ensures f.Func? && f.f < |p.funs| && |vs| != p.funs[f.f].argc ==>
      Apply(p, f, vs, st, fuel) == ERaise(BadArgCount(|vs|, p.funs[f.f].argc), st)
  {
  }

  /** A function whose body ends normally gives Void. */
  lemma EndGivesVoid(p: Prog, f: nat, vs: seq<Value>, st: Store, fuel: nat)
    requires f < |p.funs| && |vs| == p.funs[f].argc && fuel > 0
    requires Exec(p, p.funs[f].body, |st.boxes|, Alloc(st, NewBox(vs, p.funs[f].autos)), fuel - 1).Normal?
    ensures Apply(p, Func(f), vs, st, fuel).EVal? && Apply(p, Func(f), vs, st, fuel).v == Void
  {
  }

  // ----- operands, conditions and order -----

  /** Operators are applied to their operands in order, and conditions select the arm. */
  lemma ConstantOperands(p: Prog, op: nat, v: Value, w: Value, y: Expr, n: Expr, a: Stmt, b: Stmt, box: nat, st: Store,
                         fuel: nat)
    ensures Eval(p, Binary(op, Const(v), Const(w)), box, st, fuel) ==
      match p.prims.binary(op, v, w) case Val(r) => EVal(r, st) case Raise(x) => ERaise(x, st)
    ensures Eval(p, Unary(op, Const(v)), box, st, fuel) ==
      match p.prims.unary(op, v) case Val(r) => EVal(r, st) case Raise(x) => ERaise(x, st)
    ensures Eval(p, Quest(Const(TrueVal), y, n), box, st, fuel) == Eval(p, y, box, st, fuel)
    ensures Eval(p, Quest(Const(FalseVal), y, n), box, st, fuel) == Eval(p, n, box, st, fuel)
    ensures Exec(p, IfElse(Const(TrueVal), a, b), box, st, fuel) == Exec(p, a, box, st, fuel)
    ensures Exec(p, IfElse(Const(FalseVal), a, b), box, st, fuel) == Exec(p, b, box, st, fuel)
  {
    assert Eval(p, Const(v), box, st, fuel) == EVal(v, st) && Eval(p, Const(w), box, st, fuel) == EVal(w, st);
    assert EvalBool(p, Const(TrueVal), box, st, fuel) == EVal(TrueVal, st);
    assert EvalBool(p, Const(FalseVal), box, st, fuel) == EVal(FalseVal, st);
  }

  /** An effect of the first operand, or of the callee, comes in front of everything else. */
  lemma FirstOperandFirst(p: Prog, x: Expr, l: Expr, op: nat, r: Expr, args: Exprs, typed: bool, box: nat, st: Store,
                          fuel: nat)
    ensures Eval(p, Binary(op, Comma(x, l), r), box, st, fuel) == Eval(p, Comma(x, Binary(op, l, r)), box, st, fuel)
    ensures Eval(p, Call(Comma(x, l), args, typed), box, st, fuel) ==
      Eval(p, Comma(x, Call(l, args, typed)), box, st, fuel)
  {
    var a := Eval(p, x, box, st, fuel);
    assert Eval(p, Comma(x, l), box, st, fuel) == if a.EVal? then Eval(p, l, box, a.st, fuel) else a;
    if a.EVal? { var b := Eval(p, l, box, a.st, fuel); }
  }

  /** Statements are executed one after the other, and the initialisation of a for loop in front of it. */
  lemma InOrder(p: Prog, x: Expr, y: Expr, c: Option<Expr>, n: Option<Expr>, b: Stmt, box: nat, st: Store, fuel: nat)
    ensures Exec(p, Block(Cons(ExprStat(x), Cons(ExprStat(y), Nil))), box, st, fuel) ==
      Exec(p, ExprStat(Comma(x, y)), box, st, fuel)
    ensures Exec(p, For(Some(x), c, n, b), box, st, fuel) ==
      Exec(p, Block(Cons(ExprStat(x), Cons(For(None, c, n, b), Nil))), box, st, fuel)
  {
    BlockOfTwo(p, ExprStat(x), y, box, st, fuel);
    var a := Eval(p, x, box, st, fuel);
    assert Exec(p, ExprStat(x), box, st, fuel) == FromE(a);
    if a.EVal? {
      var loop := For(None, c, n, b);
      assert EvalOpt(p, None, box, a.st, fuel) == Normal(a.st);
      var r := ForLoop(p, loop, box, a.st, fuel);
      assert Exec(p, loop, box, a.st, fuel) == r;
      LoopAlike(p, c, n, b, Some(x), None, box, a.st, fuel);
      assert ForLoop(p, For(Some(x), c, n, b), box, a.st, fuel) == r;
      if r.Normal? { assert ExecBlock(p, Nil, box, r.st, fuel) == Normal(r.st); }
      assert ExecBlock(p, Cons(loop, Nil), box, a.st, fuel) == r;
    }
    assert EvalOpt(p, Some(x), box, st, fuel) == FromE(a);
    hide ForLoop, Eval;
  }

  /** Once it goes round a for loop does not depend on its initialisation. */
  lemma {:induction false} LoopAlike(p: Prog, c: Option<Expr>, n: Option<Expr>, b: Stmt, i: Option<Expr>,
                                     j: Option<Expr>, box: nat, st: Store, fuel: nat)
    ensures ForLoop(p, For(i, c, n, b), box, st, fuel) == ForLoop(p, For(j, c, n, b), box, st, fuel)
    decreases fuel
  {
    if fuel > 0 {
      var c1 := if c.Some? then EvalBool(p, c.value, box, st, fuel) else EVal(TrueVal, st);
      if c1.EVal? && c1.v.b {
        var r := Exec(p, b, box, c1.st, fuel);
        if Loops(r) {
          var r1 := EvalOpt(p, n, box, r.st, fuel);
          if r1.Normal? { LoopAlike(p, c, n, b, i, j, box, r1.st, fuel - 1); }
        }
      }
    }
  }

  // ----- expressions by others -----

  /** Logical and and or are conditional expressions. */
  lemma ShortCircuits(p: Prog, l: Expr, r: Expr, box: nat, st: Store, fuel: nat)
    ensures Eval(p, And(l, r), box, st, fuel) == Eval(p, Quest(l, r, Const(FalseVal)), box, st, fuel)
    ensures Eval(p, Or(l, r), box, st, fuel) == Eval(p, Quest(l, Const(TrueVal), r), box, st, fuel)
  {
  }

  /** An operator with an assignment is an assignment of the operator. */
  lemma OperatorAssigns(p: Prog, lv: Lval, op: nat, r: Expr, box: nat, st: Store, fuel: nat)
    ensures Eval(p, AssignOp(lv, op, r), box, st, fuel) ==
      Eval(p, Assign(lv, Binary(op, Var(lv), r)), box, st, fuel)
  {
    VariableReads(p, lv, box, st, fuel);
    var e := Binary(op, Var(lv), r);
    assert Eval(p, Assign(lv, e), box, st, fuel) ==
      var b := Eval(p, e, box, st, fuel);
      if b.EVal? then Store1(b.st, LocOf(lv, box), b.v, b.v) else b;
    hide Store1, LocOf;
  }

  /** The conditional assignments. */
  lemma ConditionAssigns(p: Prog, lv: Lval, r: Expr, box: nat, st: Store, fuel: nat)
    ensures Eval(p, AssignAnd(lv, r), box, st, fuel) ==
      Eval(p, Quest(Var(lv), Assign(lv, r), Const(FalseVal)), box, st, fuel)
    ensures Eval(p, AssignOr(lv, r), box, st, fuel) ==
      Eval(p, Quest(Var(lv), Const(TrueVal), Assign(lv, r)), box, st, fuel)
  {
    VariableReads(p, lv, box, st, fuel);
    assert Eval(p, Assign(lv, r), box, st, fuel) ==
      var b := Eval(p, r, box, st, fuel);
      if b.EVal? then Store1(b.st, LocOf(lv, box), b.v, b.v) else b;
    hide Store1, LocOf;
    assert AssignIf(p, lv, r, true, box, st, fuel) == Eval(p, AssignAnd(lv, r), box, st, fuel);
    assert AssignIf(p, lv, r, false, box, st, fuel) == Eval(p, AssignOr(lv, r), box, st, fuel);
    var c := EvalBool(p, Var(lv), box, st, fuel);
    if c.EVal? {
      assert Eval(p, Const(FalseVal), box, c.st, fuel) == EVal(FalseVal, c.st);
      assert Eval(p, Const(TrueVal), box, c.st, fuel) == EVal(TrueVal, c.st);
    }
  }

  /**
   * Where an increment is what an operator does with a constant, the prefix form is the assignment with that operator;
   * the postfix form has the same effect and gives the value there was.
   */
  lemma Increments(p: Prog, lv: Lval, iop: nat, op: nat, one: Value, box: nat, st: Store, fuel: nat)
    requires forall v :: p.prims.incDec(iop, v) == p.prims.binary(op, v, one)
    ensures
      var pre, post := Eval(p, IncDec(lv, iop, true), box, st, fuel), Eval(p, IncDec(lv, iop, false), box, st, fuel);
      && pre == Eval(p, AssignOp(lv, op, Const(one)), box, st, fuel)
      && (pre.EVal? <==> post.EVal?) && (!pre.EVal? ==> post == pre)
      && (pre.EVal? ==> (post.st == pre.st && Reading(st, lv, box) == Some(post.v) &&
          Reading(post.st, lv, box) == Some(pre.v)))
  {
    var r := Reading(st, lv, box);
    if r.Some? && InStore(st, LocOf(lv, box)) {
      var nv := p.prims.incDec(iop, r.value);
      if nv.Val? { WriteCells(st, LocOf(lv, box), nv.v); }
    }
  }

  // ----- statements by others -----

  /** A for loop with a condition only is a while loop. */
  lemma {:induction false} ForIsWhile(p: Prog, t: Expr, b: Stmt, box: nat, st: Store, fuel: nat)
    ensures ForLoop(p, For(None, Some(t), None, b), box, st, fuel) == Exec(p, While(t, b), box, st, fuel)
    ensures Exec(p, For(None, Some(t), None, b), box, st, fuel) == Exec(p, While(t, b), box, st, fuel)
    decreases fuel
  {
    assert EvalOpt(p, None, box, st, fuel) == Normal(st);
    if fuel > 0 {
      var c := EvalBool(p, t, box, st, fuel);
      if c.EVal? && c.v.b {
        var r := Exec(p, b, box, c.st, fuel);
        if Loops(r) {
          assert EvalOpt(p, None, box, r.st, fuel) == Normal(r.st);
          ForIsWhile(p, t, b, box, r.st, fuel - 1);
        }
      }
    }
  }

  /** Without a condition it is a loop whose condition is true. */
  lemma {:induction false} ForeverIsWhile(p: Prog, b: Stmt, box: nat, st: Store, fuel: nat)
    ensures ForLoop(p, For(None, None, None, b), box, st, fuel) ==
      Exec(p, While(Const(TrueVal), b), box, st, fuel)
    ensures Exec(p, For(None, None, None, b), box, st, fuel) == Exec(p, While(Const(TrueVal), b), box, st, fuel)
    decreases fuel
  {
    assert EvalOpt(p, None, box, st, fuel) == Normal(st);
    if fuel > 0 {
      assert EvalBool(p, Const(TrueVal), box, st, fuel) == EVal(TrueVal, st);
      var r := Exec(p, b, box, st, fuel);
      if Loops(r) {
        assert EvalOpt(p, None, box, r.st, fuel) == Normal(r.st);
        ForeverIsWhile(p, b, box, r.st, fuel - 1);
      }
    }
  }

  /** No break and no continue ends the statement. */
  ghost predicate NoJumps(b: Stmt) {
    forall p, box, st, fuel :: !Exec(p, b, box, st, fuel).Broke? && !Exec(p, b, box, st, fuel).Continued?
  }

  /** The step of a for loop is executed behind its body. */
  lemma {:induction false} StepBehindBody(p: Prog, c: Option<Expr>, n: Expr, b: Stmt, box: nat, st: Store, fuel: nat)
    requires NoJumps(b)
    ensures
      ForLoop(p, For(None, c, Some(n), b), box, st, fuel) ==
      ForLoop(p, For(None, c, None, Block(Cons(b, Cons(ExprStat(n), Nil)))), box, st, fuel)
    decreases fuel
  {
    var b2 := Block(Cons(b, Cons(ExprStat(n), Nil)));
    var c1 := if c.Some? then EvalBool(p, c.value, box, st, fuel) else EVal(TrueVal, st);
    if fuel > 0 && c1.EVal? && c1.v.b {
      var r := Exec(p, b, box, c1.st, fuel);
      BlockOfTwo(p, b, n, box, c1.st, fuel);
      if r.Normal? {
        var e := Eval(p, n, box, r.st, fuel);
        if e.EVal? {
          assert EvalOpt(p, None, box, e.st, fuel) == Normal(e.st);
          StepBehindBody(p, c, n, b, box, e.st, fuel - 1);
        }
      }
    }
  }

  lemma BlockOfTwo(p: Prog, b: Stmt, n: Expr, box: nat, st: Store, fuel: nat)
    ensures
      var r := Exec(p, b, box, st, fuel);
      Exec(p, Block(Cons(b, Cons(ExprStat(n), Nil))), box, st, fuel) ==
      if r.Normal? then FromE(Eval(p, n, box, r.st, fuel)) else r
  {
    var r := Exec(p, b, box, st, fuel);
    assert ExecBlock(p, Cons(b, Cons(ExprStat(n), Nil)), box, st, fuel) ==
      if r.Normal? then ExecBlock(p, Cons(ExprStat(n), Nil), box, r.st, fuel) else r;
    if r.Normal? {
      assert Exec(p, ExprStat(n), box, r.st, fuel) == FromE(Eval(p, n, box, r.st, fuel));
      var e := Eval(p, n, box, r.st, fuel);
      if e.EVal? { assert ExecBlock(p, Nil, box, e.st, fuel) == Normal(e.st); }
    }
  }

  /** A continue goes to the step, a break behind the loop. */
  lemma {:induction false} JumpsInLoops(p: Prog, c: Option<Expr>, n: Option<Expr>, t: Expr, box: nat, st: Store,
                                        fuel: nat)
    ensures ForLoop(p, For(None, c, n, Continue), box, st, fuel) == ForLoop(p, For(None, c, n, Semi), box, st, fuel)
    ensures Exec(p, While(t, Break), box, st, fuel) ==
      if fuel == 0 then STimeout else Exec(p, If(t, Semi), box, st, fuel)
    ensures Exec(p, DoWhile(Break, t), box, st, fuel) == if fuel == 0 then STimeout else Normal(st)
    decreases fuel
  {
    if fuel > 0 {
      var c1 := if c.Some? then EvalBool(p, c.value, box, st, fuel) else EVal(TrueVal, st);
      if c1.EVal? && c1.v.b {
        assert Exec(p, Continue, box, c1.st, fuel) == Continued(c1.st);
        assert Exec(p, Semi, box, c1.st, fuel) == Normal(c1.st);
        var r := EvalOpt(p, n, box, c1.st, fuel);
        if r.Normal? { JumpsInLoops(p, c, n, t, box, r.st, fuel - 1); }
      }
    }
  }

  /** A do loop executes its body first. */
  lemma BodyFirst(p: Prog, b: Stmt, box: nat, st: Store, fuel: nat)
    requires NoJumps(b) && fuel > 0
    ensures Exec(p, DoWhile(b, Const(FalseVal)), box, st, fuel) == Exec(p, b, box, st, fuel)
    ensures Exec(p, While(Const(FalseVal), b), box, st, fuel) == Normal(st)
  {
    var r := Exec(p, b, box, st, fuel);
    if r.Normal? { assert EvalBool(p, Const(FalseVal), box, r.st, fuel) == EVal(FalseVal, r.st); }
    assert EvalBool(p, Const(FalseVal), box, st, fuel) == EVal(FalseVal, st);
  }

  /** The statements from the first whose label equals the subject on, or from the default on; a break leaves them. */
  lemma SwitchGoesOn(p: Prog, c1: Value, b1: Stmts, c2: Value, b2: Stmts, b3: Stmts, v: Value, box: nat, st: Store,
                     fuel: nat)
    requires p.prims.equal(v, c1).Val? && p.prims.equal(v, c2).Val?
    ensures
      var cs := Arm(Some(Const(c1)), b1, Arm(Some(Const(c2)), b2, Arm(None, b3, NoCases)));
      var from := if p.prims.equal(v, c1).v == TrueVal then [b1, b2, b3]
                  else if p.prims.equal(v, c2).v == TrueVal then [b2, b3]
                  else [b3];
      Exec(p, Switch(Const(v), cs), box, st, fuel) ==
        var r := InTurn(p, from, box, st, fuel);
        if r.Broke? then Normal(r.st) else r
  {
    var cs3 := Arm(None, b3, NoCases);
    var cs2 := Arm(Some(Const(c2)), b2, cs3);
    var cs1 := Arm(Some(Const(c1)), b1, cs2);
    assert Eval(p, Const(v), box, st, fuel) == EVal(v, st);
    assert Eval(p, Const(c1), box, st, fuel) == EVal(c1, st) && Eval(p, Const(c2), box, st, fuel) == EVal(c2, st);
    assert DefaultArm(cs1) == DefaultArm(cs2) == DefaultArm(cs3) == cs3;
    assert Select(p, NoCases, v, box, st, fuel) == Unmatched(st) == Select(p, cs3, v, box, st, fuel);
    assert Select(p, cs2, v, box, st, fuel) ==
      if p.prims.equal(v, c2).v == TrueVal then Selected(cs2, st) else Unmatched(st);
    ArmsInTurn(p, NoCases, [], box, st, fuel);
    forall st1: Store ensures ExecArms(p, cs3, box, st1, fuel) == InTurn(p, [b3], box, st1, fuel) {
      ArmsInTurn(p, cs3, [b3], box, st1, fuel);
    }
    ArmsInTurn(p, cs2, [b2, b3], box, st, fuel);
    ArmsInTurn(p, cs1, [b1, b2, b3], box, st, fuel);
  }

  /** The blocks one after the other, as long as they end normally. */
  function InTurn(p: Prog, bs: seq<Stmts>, box: nat, st: Store, fuel: nat): SOut {
    if bs == [] then Normal(st)
    else
      var r := ExecBlock(p, bs[0], box, st, fuel);
      if r.Normal? then InTurn(p, bs[1..], box, r.st, fuel) else r
  }

  function Bodies(cs: Cases): seq<Stmts> {
    match cs
    case NoCases => []
    case Arm(_, b, rest) => [b] + Bodies(rest)
  }

  lemma {:induction false} ArmsInTurn(p: Prog, cs: Cases, bs: seq<Stmts>, box: nat, st: Store, fuel: nat)
    requires bs == Bodies(cs)
    ensures ExecArms(p, cs, box, st, fuel) == InTurn(p, bs, box, st, fuel)
    decreases cs
  {
    match cs
    case NoCases =>
    case Arm(_, b, rest) =>
      assert bs[0] == b && bs[1..] == Bodies(rest);
      var r := ExecBlock(p, b, box, st, fuel);
      if r.Normal? { ArmsInTurn(p, rest, bs[1..], box, r.st, fuel); }
  }

  // ----- runs of compiled programs -----

  /** A program that returns a call `f(args)` of a function that returns its formal `i` finishes with argument `i`. */
  lemma RunGivesArgument(p: Prog, main: nat, f: nat, args: Exprs, typed: bool, st: Store, fuel: nat, i: nat)
    returns (n: nat)
    requires Clean(p) && main < |p.funs| && f < |p.funs| && fuel > 0
    requires p.funs[main].argc == 0 && p.funs[main].body == Return(Call(Const(Func(f)), args, typed))
    requires p.funs[f].argc == Length(args) && i < Length(args) && p.funs[f].body == Return(Var(LocalVar(i)))
    requires EvalArgs(p, args, |st.boxes|, Alloc(st, NewBox([], p.funs[main].autos)), fuel).AVals?
    ensures
      var vs := EvalArgs(p, args, |st.boxes|, Alloc(st, NewBox([], p.funs[main].autos)), fuel);
      Run(p, main, st, n) == Finished(vs.vs[i], Alloc(vs.st, NewBox(vs.vs, p.funs[f].autos)))
  {
    var box, st1 := |st.boxes|, Alloc(st, NewBox([], p.funs[main].autos));
    var vs := EvalArgs(p, args, box, st1, fuel);
    var e := Call(Const(Func(f)), args, typed);
    FormalReturned(p, f, vs.vs, vs.st, fuel, i);
    assert Eval(p, Const(Func(f)), box, st1, fuel) == EVal(Func(f), st1);
    assert Eval(p, e, box, st1, fuel) == Apply(p, Func(f), vs.vs, vs.st, fuel);
    assert Exec(p, Return(e), box, st1, fuel) ==
      Returned(vs.vs[i], Alloc(vs.st, NewBox(vs.vs, p.funs[f].autos)));
    assert Meaning(p, main, st, fuel + 1) == BodyResult(Exec(p, Return(e), box, st1, fuel));
    hide Exec, Eval, EvalArgs, Apply, Alloc, NewBox, Steps;
    n := Forward(p, main, st, fuel + 1);
  }

  /** A program that assigns to a variable and returns it finishes with the value assigned, which is in its cell. */
  lemma RunGivesAssigned(p: Prog, main: nat, lv: Lval, e: Expr, st: Store, fuel: nat) returns (n: nat)
    requires Clean(p) && main < |p.funs| && p.funs[main].argc == 0
    requires p.funs[main].body == Block(Cons(ExprStat(Assign(lv, e)), Cons(Return(Var(lv)), Nil)))
    requires Eval(p, Assign(lv, e), |st.boxes|, Alloc(st, NewBox([], p.funs[main].autos)), fuel).EVal?
    ensures
      var r := Eval(p, e, |st.boxes|, Alloc(st, NewBox([], p.funs[main].autos)), fuel);
      var c := Run(p, main, st, n);
      r.EVal? && c.Finished? && c.value == r.v && Reading(c.store, lv, |st.boxes|) == Some(r.v)
  {
    var box, st1 := |st.boxes|, Alloc(st, NewBox([], p.funs[main].autos));
    var a := Eval(p, Assign(lv, e), box, st1, fuel);
    AssignmentReads(p, lv, e, box, st1, fuel, lv, box);
    VariableReads(p, lv, box, a.st, fuel);
    var last := Return(Var(lv));
    assert Exec(p, last, box, a.st, fuel) == Returned(a.v, a.st);
    assert ExecBlock(p, Cons(last, Nil), box, a.st, fuel) == Returned(a.v, a.st);
    assert Exec(p, ExprStat(Assign(lv, e)), box, st1, fuel) == Normal(a.st);
    assert Exec(p, p.funs[main].body, box, st1, fuel) == Returned(a.v, a.st);
    assert Meaning(p, main, st, fuel + 1) == BodyResult(Exec(p, p.funs[main].body, box, st1, fuel));
    hide Exec, ExecBlock, Eval, Apply, Alloc, NewBox, Steps;
    n := Forward(p, main, st, fuel + 1);
  }
}
