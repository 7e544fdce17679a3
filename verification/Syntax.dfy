/** The modelled source language and its reference semantics. */
module Syntax {
  import opened Options
  import opened Values

  /** A simple lvalue: a global or a variable of the current function. */
  datatype Lval = GlobalVar(g: nat) | LocalVar(x: nat)

  datatype Expr =
    | Const(v: Value)
    | Var(lv: Lval)
    | Unary(uop: nat, arg: Expr)
    | Binary(bop: nat, left: Expr, right: Expr)
    | Quest(test: Expr, yes: Expr, no: Expr)
    | And(left: Expr, right: Expr)
    | Or(left: Expr, right: Expr)
    | Assign(lv: Lval, rhs: Expr)
    | AssignOp(lv: Lval, aop: nat, rhs: Expr)
    | AssignAnd(lv: Lval, rhs: Expr)
    | AssignOr(lv: Lval, rhs: Expr)
    | IncDec(lv: Lval, iop: nat, pre: bool)
    | Comma(left: Expr, right: Expr)
    | Call(fn: Expr, args: Exprs, typed: bool)  // typed: its static type allows `return` to make it a tail call

  datatype Exprs = NoArgs | Arg(hd: Expr, tl: Exprs)

  datatype Stmt =
    | If(test: Expr, then_: Stmt)
    | IfElse(test: Expr, then_: Stmt, else_: Stmt)
    | While(test: Expr, body: Stmt)
    | DoWhile(body: Stmt, test: Expr)
    | For(init: Option<Expr>, cond: Option<Expr>, step: Option<Expr>, body: Stmt)
    | Switch(subject: Expr, cases: Cases)
    | Break
    | Continue
    | Return(result: Expr)
    | ReturnVoid
    | ExprStat(e: Expr)
    | Semi
    | Block(stmts: Stmts)

  datatype Stmts = Nil | Cons(hd: Stmt, tl: Stmts)

  /** The arms of a switch; an arm without a label is the default. */
  datatype Cases = NoCases | Arm(labelled: Option<Expr>, body: Stmts, rest: Cases)

  function Length(args: Exprs): nat {
    match args
    case NoArgs => 0
    case Arg(_, tl) => 1 + Length(tl)
  }

  /** A function: its formals are variables 0..argc, followed by `autos` further variables. */
  datatype Fun = Fun(argc: nat, autos: nat, body: Stmt)

  datatype Prog = Prog(prims: Prims, funs: seq<Fun>)

  // ----- results -----

  datatype EOut = EVal(v: Value, st: Store) | ERaise(x: Exn, st: Store) | ETimeout

  datatype AOut = AVals(vs: seq<Value>, st: Store) | ARaise(x: Exn, st: Store) | ATimeout

  datatype SOut =
    | Normal(st: Store)
    | Broke(st: Store)
    | Continued(st: Store)
    | Returned(v: Value, st: Store)
    | SRaise(x: Exn, st: Store)
    | STimeout

  /** Where a switch continues: at the arms `arms`, or nowhere. */
  datatype Sel = Selected(arms: Cases, st: Store) | Unmatched(st: Store) | SelRaise(x: Exn, st: Store) | SelTimeout

  // ----- expressions and statements -----

  /** The location of a variable in a function whose frame owns box `box`. */
  function LocOf(lv: Lval, box: nat): Loc {
    match lv
    case GlobalVar(g) => GlobalLoc(g)
    case LocalVar(x) => LocalLoc(box, x)
  }

  function Store1(st: Store, loc: Loc, v: Value, result: Value): EOut {
    if InStore(st, loc) then EVal(result, Write(st, loc, v)) else ERaise(InvalidArrayBounds(v), st)
  }

  function LiftOp(r: OpResult, st: Store): EOut {
    match r
    case Val(v) => EVal(v, st)
    case Raise(x) => ERaise(x, st)
  }

  /**
   * Evaluate `e` in the function whose variables live in box `box`.  Only loop iterations
   * and calls consume fuel; ETimeout means that the fuel did not suffice.
   */
  function Eval(p: Prog, e: Expr, box: nat, st: Store, fuel: nat): EOut
    decreases fuel, 1, e, 0
  {
    match e
    case Const(v) => EVal(v, st)
    case Var(lv) =>
      (match Read(st, LocOf(lv, box))
        case None => ERaise(UninitializedValue, st)
        case Some(v) => EVal(v, st))
    case Unary(op, a) =>
      var r := Eval(p, a, box, st, fuel);
      if r.EVal? then LiftOp(p.prims.unary(op, r.v), r.st) else r
    case Binary(op, l, r) =>
      var a := Eval(p, l, box, st, fuel);
      if !a.EVal? then a else
      var b := Eval(p, r, box, a.st, fuel);
      if !b.EVal? then b else LiftOp(p.prims.binary(op, a.v, b.v), b.st)
    case Quest(t, y, n) =>
      var c := EvalBool(p, t, box, st, fuel);
      if !c.EVal? then c else Eval(p, if c.v.b then y else n, box, c.st, fuel)
    case And(l, r) =>
      var c := EvalBool(p, l, box, st, fuel);
      if c.EVal? && c.v.b then Eval(p, r, box, c.st, fuel) else c
    case Or(l, r) =>
      var c := EvalBool(p, l, box, st, fuel);
      if c.EVal? && !c.v.b then Eval(p, r, box, c.st, fuel) else c
    case Assign(lv, r) =>
      var b := Eval(p, r, box, st, fuel);
      if b.EVal? then Store1(b.st, LocOf(lv, box), b.v, b.v) else b
    case AssignOp(lv, op, r) =>
      (match Read(st, LocOf(lv, box))
        case None => ERaise(UninitializedValue, st)
        case Some(old_) =>
          var b := Eval(p, r, box, st, fuel);
          if !b.EVal? then b
          else match p.prims.binary(op, old_, b.v)
            case Raise(x) => ERaise(x, b.st)
            case Val(v) => Store1(b.st, LocOf(lv, box), v, v))
    case AssignAnd(lv, r) => AssignIf(p, lv, r, true, box, st, fuel)
    case AssignOr(lv, r) => AssignIf(p, lv, r, false, box, st, fuel)
    case IncDec(lv, op, pre) =>
      (match Read(st, LocOf(lv, box))
        case None => ERaise(UninitializedValue, st)
        case Some(v) =>
          match p.prims.incDec(op, v)
          case Raise(x) => ERaise(x, st)
          case Val(nv) => Store1(st, LocOf(lv, box), nv, if pre then nv else v))
    case Comma(l, r) =>
      var a := Eval(p, l, box, st, fuel);
      if a.EVal? then Eval(p, r, box, a.st, fuel) else a
    case Call(f, args, _) =>
      var a := Eval(p, f, box, st, fuel);
      if !a.EVal? then a
      else match EvalArgs(p, args, box, a.st, fuel)
        case AVals(vs, st1) => Apply(p, a.v, vs, st1, fuel)
        case ARaise(x, st1) => ERaise(x, st1)
        case ATimeout => ETimeout
  }

  /** `lv &&= r` (sense true) and `lv ||= r` (sense false): r is evaluated and stored only if lv equals the sense. */
  function AssignIf(p: Prog, lv: Lval, r: Expr, sense: bool, box: nat, st: Store, fuel: nat): EOut
    decreases fuel, 1, r, 1
  {
    match Read(st, LocOf(lv, box))
    case None => ERaise(UninitializedValue, st)
    case Some(v) =>
      if !v.Bool? then ERaise(InvalidArgument(v), st)
      else if v.b != sense then EVal(v, st)
      else
        var b := Eval(p, r, box, st, fuel);
        if b.EVal? then Store1(b.st, LocOf(lv, box), b.v, b.v) else b
  }

  /** A condition must be a boolean. */
  function EvalBool(p: Prog, e: Expr, box: nat, st: Store, fuel: nat): (r: EOut)
    ensures r.EVal? ==> r.v.Bool?
    decreases fuel, 1, e, 1
  {
    var r := Eval(p, e, box, st, fuel);
    if r.EVal? && !r.v.Bool? then ERaise(InvalidArgument(r.v), r.st) else r
  }

  function EvalArgs(p: Prog, args: Exprs, box: nat, st: Store, fuel: nat): (r: AOut)
    ensures r.AVals? ==> |r.vs| == Length(args)
    decreases fuel, 1, args, 0
  {
    match args
    case NoArgs => AVals([], st)
    case Arg(e, tl) =>
      match Eval(p, e, box, st, fuel)
      case ERaise(x, st1) => ARaise(x, st1)
      case ETimeout => ATimeout
      case EVal(v, st1) =>
        match EvalArgs(p, tl, box, st1, fuel)
        case AVals(vs, st2) => AVals([v] + vs, st2)
        case other => other
  }

  /** Call `f`: a fresh box holds the arguments; falling off the end of the body returns Void. */
  function Apply(p: Prog, f: Value, vs: seq<Value>, st: Store, fuel: nat): EOut
    decreases fuel, 0
  {
    if !(f.Func? && f.f < |p.funs|) then ERaise(InvalidUnop(f), st)
    else
      var fn := p.funs[f.f];
      if |vs| != fn.argc then ERaise(BadArgCount(|vs|, fn.argc), st)
      else if fuel == 0 then ETimeout
      else
        BodyResult(Exec(p, fn.body, |st.boxes|, Alloc(st, NewBox(vs, fn.autos)), fuel - 1))
  }

  function BodyResult(r: SOut): EOut {
    match r
    case Normal(st) => EVal(Void, st)
    case Returned(v, st) => EVal(v, st)
    case SRaise(x, st) => ERaise(x, st)
    case STimeout => ETimeout
    case Broke(st) => EVal(Void, st)      // a break or continue outside of a loop does not compile
    case Continued(st) => EVal(Void, st)
  }

  function FromE(r: EOut): SOut {
    match r
    case EVal(_, st) => Normal(st)
    case ERaise(x, st) => SRaise(x, st)
    case ETimeout => STimeout
  }

  function Exec(p: Prog, s: Stmt, box: nat, st: Store, fuel: nat): SOut
    decreases fuel, 1, s, 1
  {
    match s
    case If(t, a) =>
      var c := EvalBool(p, t, box, st, fuel);
      if !c.EVal? then FromE(c) else if c.v.b then Exec(p, a, box, c.st, fuel) else Normal(c.st)
    case IfElse(t, a, b) =>
      var c := EvalBool(p, t, box, st, fuel);
      if !c.EVal? then FromE(c) else Exec(p, if c.v.b then a else b, box, c.st, fuel)
    case While(t, b) =>
      if fuel == 0 then STimeout else
      var c := EvalBool(p, t, box, st, fuel);
      if !c.EVal? then FromE(c)
      else if !c.v.b then Normal(c.st)
      else
        var r := Exec(p, b, box, c.st, fuel);
        if Loops(r) then Exec(p, s, box, r.st, fuel - 1) else Leave(r)
    case DoWhile(b, t) =>
      if fuel == 0 then STimeout else
      var r := Exec(p, b, box, st, fuel);
      if !Loops(r) then Leave(r) else
      var c := EvalBool(p, t, box, r.st, fuel);
      if !c.EVal? then FromE(c)
      else if c.v.b then Exec(p, s, box, c.st, fuel - 1) else Normal(c.st)
    case For(i, c, n, b) =>
      var r := EvalOpt(p, i, box, st, fuel);
      if r.Normal? then ForLoop(p, s, box, r.st, fuel) else r
    case Switch(e, cs) =>
      var r := Eval(p, e, box, st, fuel);
      if !r.EVal? then FromE(r)
      else (match Select(p, cs, r.v, box, r.st, fuel)
        case SelRaise(x, st1) => SRaise(x, st1)
        case SelTimeout => STimeout
        case Selected(arms, st1) => LeaveSwitch(ExecArms(p, arms, box, st1, fuel))
        case Unmatched(st1) => LeaveSwitch(ExecArms(p, DefaultArm(cs), box, st1, fuel)))
    case Break => Broke(st)
    case Continue => Continued(st)
    case Return(e) =>
      var r := Eval(p, e, box, st, fuel);
      if r.EVal? then Returned(r.v, r.st) else FromE(r)
    case ReturnVoid => Returned(Void, st)
    case ExprStat(e) => FromE(Eval(p, e, box, st, fuel))
    case Semi => Normal(st)
    case Block(ss) => ExecBlock(p, ss, box, st, fuel)
  }

  /** A loop goes round again after its body ended normally or by continue. */
  predicate Loops(r: SOut) { r.Normal? || r.Continued? }

  function Leave(r: SOut): SOut { if r.Broke? then Normal(r.st) else r }

  function LeaveSwitch(r: SOut): SOut { if r.Broke? then Normal(r.st) else r }

  function EvalOpt(p: Prog, e: Option<Expr>, box: nat, st: Store, fuel: nat): SOut
    decreases fuel, 1, e, 1
  {
    match e
    case None => Normal(st)
    case Some(x) => FromE(Eval(p, x, box, st, fuel))
  }

  /** A for statement after its initialiser. */
  function ForLoop(p: Prog, s: Stmt, box: nat, st: Store, fuel: nat): SOut
    requires s.For?
    decreases fuel, 1, s, 0
  {
    if fuel == 0 then STimeout else
    var c := if s.cond.Some? then EvalBool(p, s.cond.value, box, st, fuel) else EVal(TrueVal, st);
    if !c.EVal? then FromE(c)
    else if !c.v.b then Normal(c.st)
    else
      var r := Exec(p, s.body, box, c.st, fuel);
      if !Loops(r) then Leave(r) else
      var n := EvalOpt(p, s.step, box, r.st, fuel);
      if n.Normal? then ForLoop(p, s, box, n.st, fuel - 1) else n
  }

  function ExecBlock(p: Prog, ss: Stmts, box: nat, st: Store, fuel: nat): SOut
    decreases fuel, 1, ss, 0
  {
    match ss
    case Nil => Normal(st)
    case Cons(s, tl) =>
      var r := Exec(p, s, box, st, fuel);
      if r.Normal? then ExecBlock(p, tl, box, r.st, fuel) else r
  }

  /** The labels are evaluated in order until one equals the subject. */
  function Select(p: Prog, cs: Cases, v: Value, box: nat, st: Store, fuel: nat): (r: Sel)
    ensures r.Selected? ==> r.arms == cs || r.arms < cs
    decreases fuel, 1, cs, 0
  {
    match cs
    case NoCases => Unmatched(st)
    case Arm(None, _, rest) => Select(p, rest, v, box, st, fuel)
    case Arm(Some(e), _, rest) =>
      match Eval(p, e, box, st, fuel)
      case ERaise(x, st1) => SelRaise(x, st1)
      case ETimeout => SelTimeout
      case EVal(w, st1) =>
        match p.prims.equal(v, w)
        case Raise(x) => SelRaise(x, st1)
        case Val(t) => if t == TrueVal then Selected(cs, st1) else Select(p, rest, v, box, st1, fuel)
  }

  /** The arms from the first default on. */
  function DefaultArm(cs: Cases): (r: Cases)
    ensures r == cs || r < cs
  {
    match cs
    case NoCases => NoCases
    case Arm(label_, _, rest) => if label_.None? then cs else DefaultArm(rest)
  }

  /** Run the arms one after the other: an arm falls through to the next. */
  function ExecArms(p: Prog, cs: Cases, box: nat, st: Store, fuel: nat): SOut
    decreases fuel, 1, cs, 0
  {
    match cs
    case NoCases => Normal(st)
    case Arm(_, b, rest) =>
      var r := ExecBlock(p, b, box, st, fuel);
      if r.Normal? then ExecArms(p, rest, box, r.st, fuel) else r
  }
}
