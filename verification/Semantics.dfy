/**
 A big-step semantics for the syntax of GoAst.

 Only an iteration of a `for` loop and a call of a function of the file spend fuel, so
 that wrapping code in conditionals and immediately called function literals leaves
 the spending unchanged, and two programs can be compared at every amount of fuel,
 running out included.  A call of a function outside the file is recorded in the trace
 and answered by `ext`, which may depend on everything that was called before.
 */
module Semantics {
  import opened Wrappers
  import opened GoAst

  datatype Value = IntV(n: int) | BoolV(b: bool) | StrV(s: string) | NilV | ListV(items: seq<Value>)

  datatype Event = Event(fun: string, args: seq<Value>)

  datatype State = State(vars: map<string, Value>, globals: map<string, Value>, trace: seq<Event>)

  datatype World = World(funcs: seq<FuncDecl>, active: int, ext: (string, seq<Value>, seq<Event>) -> Value)

  datatype Cause = Panicked | OutOfFuel | Trapped

  /**
   A name that no source can spell.  A call of it marks a point of a program: a run that gets there ends with its own
   cause.
   */
  const TRAP: string := " trap"

  datatype Control = Next | Break | Continue | Return(v: Value)

  datatype EvalResult = Val(v: Value, st: State) | Halt(cause: Cause, st: State)

  datatype ArgsResult = Vals(vs: seq<Value>, st: State) | ArgsHalt(cause: Cause, st: State)

  datatype SelectResult = Selected(index: Option<nat>, st: State) | SelectHalt(cause: Cause, st: State)

  datatype MatchResult = Matched(yes: bool, st: State) | MatchHalt(cause: Cause, st: State)

  datatype ExecResult = Fin(ctl: Control, st: State) | Stop(cause: Cause, st: State)

  // ---- Values ----

  const WORD: int := 0x1_0000_0000_0000_0000

  /** Two's complement wrap-around of 64-bit integers. */
  function Wrap(n: int): int {
    var r := n % WORD;
    if r < WORD / 2 then r else r - WORD
  }

  function Abs(n: int): nat { if n < 0 then -n else n }

  /** Go's division truncates toward zero. */
  function TruncDiv(a: int, b: int): int
    requires b != 0
  {
    var q := Abs(a) / Abs(b);
    if (a < 0) == (b < 0) then q else -q
  }

  function Pow2(k: nat): (p: nat)
    ensures p > 0
  {
    if k == 0 then 1 else 2 * Pow2(k - 1)
  }

  /** How far a number is from the two whose bits are all alike, 0 and -1. */
  function BitsLeft(n: int): nat { if n < 0 then -n - 1 else n }

  /** Bitwise operators on two's complement, from the lowest bit up. */
  function BitAnd(a: int, b: int): int
    decreases BitsLeft(a) + BitsLeft(b)
  {
    if BitsLeft(a) == 0 && BitsLeft(b) == 0 then (if a == -1 && b == -1 then -1 else 0)
    else 2 * BitAnd(a / 2, b / 2) + if a % 2 == 1 && b % 2 == 1 then 1 else 0
  }

  function BitOr(a: int, b: int): int
    decreases BitsLeft(a) + BitsLeft(b)
  {
    if BitsLeft(a) == 0 && BitsLeft(b) == 0 then (if a == -1 || b == -1 then -1 else 0)
    else 2 * BitOr(a / 2, b / 2) + if a % 2 == 1 || b % 2 == 1 then 1 else 0
  }

  function LitValue(l: Lit): Value {
    match l
    case IntLit(n) => IntV(n)
    case FloatLit(t) => StrV(t)
    case StringLit(t) => StrV(t)
    case CharLit(t) => StrV(t)
  }

  function Unary(op: Token, v: Value): Option<Value> {
    match (op, v)
    case (NOT, BoolV(b)) => Some(BoolV(!b))
    case (SUB, IntV(n)) => Some(IntV(Wrap(-n)))
    case (ADD, IntV(n)) => Some(IntV(n))
    case _ => None
  }

  /** Operators without short-circuiting; `None` is a run-time panic. */
  function Binary(op: Token, a: Value, b: Value): Option<Value> {
    if op == EQL then Some(BoolV(a == b))
    else if op == NEQ then Some(BoolV(a != b))
    else if a.StrV? && b.StrV? && op == ADD then Some(StrV(a.s + b.s))
    else if !(a.IntV? && b.IntV?) then None
    else
      match op
      case ADD => Some(IntV(Wrap(a.n + b.n)))
      case SUB => Some(IntV(Wrap(a.n - b.n)))
      case MUL => Some(IntV(Wrap(a.n * b.n)))
      case QUO => if b.n == 0 then None else Some(IntV(Wrap(TruncDiv(a.n, b.n))))
      case REM => if b.n == 0 then None else Some(IntV(a.n - b.n * TruncDiv(a.n, b.n)))
      case LSS => Some(BoolV(a.n < b.n))
      case LEQ => Some(BoolV(a.n <= b.n))
      case GTR => Some(BoolV(a.n > b.n))
      case GEQ => Some(BoolV(a.n >= b.n))
      case AND => Some(IntV(BitAnd(a.n, b.n)))
      case OR => Some(IntV(BitOr(a.n, b.n)))
      // shifting by a negative number panics; a right shift keeps the sign
      case SHL => if b.n < 0 then None else Some(IntV(Wrap(a.n * Pow2(b.n))))
      case SHR => if b.n < 0 then None else Some(IntV(a.n / Pow2(b.n)))
      case _ => None
  }

  function Lookup(st: State, name: string): Value {
    if name == "true" then BoolV(true)
    else if name == "false" then BoolV(false)
    else if name == "nil" then NilV
    else if name in st.vars then st.vars[name]
    else if name in st.globals then st.globals[name]
    else IntV(0)
  }

  function Store(st: State, name: string, v: Value): State {
    if name == "_" then st
    else if name in st.vars || name !in st.globals then st.(vars := st.vars[name := v])
    else st.(globals := st.globals[name := v])
  }

  function StoreName(st: State, name: Option<Name>, v: Value): State {
    match name
    case None => st
    case Some(n) => Store(st, n.id, v)
  }

  function Combine(tok: AssignTok, cur: Value, v: Value): Option<Value> {
    match tok
    case SetTok => Some(v)
    case DefineTok => Some(v)
    case AddTok => Binary(ADD, cur, v)
    case SubTok => Binary(SUB, cur, v)
    case MulTok => Binary(MUL, cur, v)
    case QuoTok => Binary(QUO, cur, v)
  }

  function Range(n: nat): seq<Value> { seq(n, i => IntV(i)) }

  /** What `range` iterates over; `None` when the value cannot be ranged over. */
  function Elements(v: Value): Option<seq<Value>> {
    match v
    case ListV(items) => Some(items)
    case IntV(n) => Some(Range(if n < 0 then 0 else n))
    case NilV => Some([])
    case _ => None
  }

  function Bind(params: seq<string>, vs: seq<Value>): map<string, Value> {
    if params == [] || vs == [] then map[]
    else Bind(params[1..], vs[1..])[params[0] := vs[0]]
  }

  function FindFunc(funcs: seq<FuncDecl>, name: string): Option<FuncDecl> {
    if funcs == [] then None
    else if funcs[0].name == name then Some(funcs[0])
    else FindFunc(funcs[1..], name)
  }

  /** The index of the default clause, if there is one. */
  function DefaultIndex(cs: seq<Clause>): (r: Option<nat>)
    ensures r.Some? ==> r.value < |cs| && cs[r.value].isDefault
  {
    if cs == [] then None
    else if cs[0].isDefault then Some(0)
    else
      match DefaultIndex(cs[1..])
      case None => None
      case Some(i) => Some(i + 1)
  }

  // ---- Expressions ----

  function Eval(w: World, fuel: nat, e: Expr, st: State): EvalResult
    decreases fuel, e, 1, 0
  {
    match e
    case Ident(_, name) => Val(if name == ACTIVE then IntV(w.active) else Lookup(st, name), st)
    case BasicLit(_, l) => Val(LitValue(l), st)
    case ParenExpr(_, x) => Eval(w, fuel, x, st)
    case UnaryExpr(_, op, x) =>
      (match Eval(w, fuel, x, st)
       case Halt(c, s) => Halt(c, s)
       case Val(v, s) => OrPanic(Unary(op, v), s))
    case BinaryExpr(_, x, op, y) =>
      (match Eval(w, fuel, x, st)
       case Halt(c, s) => Halt(c, s)
       case Val(a, s) =>
         if op == LAND && a == BoolV(false) then Val(a, s)
         else if op == LOR && a == BoolV(true) then Val(a, s)
         else
           match Eval(w, fuel, y, s)
           case Halt(c, s') => Halt(c, s')
           case Val(b, s') =>
             if op == LAND || op == LOR then
               if a.BoolV? && b.BoolV? then Val(b, s') else Halt(Panicked, s')
             else OrPanic(Binary(op, a, b), s'))
    case CallExpr(_, fun, args) =>
      (match EvalArgs(w, fuel, args, st)
       case ArgsHalt(c, s) => Halt(c, s)
       case Vals(vs, s) => Invoke(w, fuel, fun, vs, s, e))
    case FuncLitCall(body) => LeaveFunc(ExecList(w, fuel, body, st))
  }

  function OrPanic(r: Option<Value>, st: State): EvalResult {
    match r
    case None => Halt(Panicked, st)
    case Some(v) => Val(v, st)
  }

  /** What the caller of a function body sees. */
  function LeaveFunc(r: ExecResult): EvalResult {
    match r
    case Stop(c, s) => Halt(c, s)
    case Fin(Return(v), s) => Val(v, s)
    case Fin(Next, s) => Val(NilV, s)
    case Fin(_, s) => Halt(Panicked, s)
  }

  function RestoreVars(r: EvalResult, vars: map<string, Value>): EvalResult {
    match r
    case Halt(c, s) => Halt(c, s.(vars := vars))
    case Val(v, s) => Val(v, s.(vars := vars))
  }

  /** A call of a named function with evaluated arguments; `ghost at` only orders the recursion. */
  function Invoke(w: World, fuel: nat, fun: string, vs: seq<Value>, st: State, ghost at: Expr): EvalResult
    decreases fuel, at, 0, 0
  {
    if fun == "panic" then Halt(Panicked, st)
    else if fun == TRAP then Halt(Trapped, st)
    else
      match FindFunc(w.funcs, fun)
      case None => Val(w.ext(fun, vs, st.trace), st.(trace := st.trace + [Event(fun, vs)]))
      case Some(f) =>
        if fuel == 0 then Halt(OutOfFuel, st)
        else RestoreVars(LeaveFunc(ExecList(w, fuel - 1, f.body, st.(vars := Bind(f.params, vs)))), st.vars)
  }

  function EvalArgs(w: World, fuel: nat, args: seq<Expr>, st: State): ArgsResult
    decreases fuel, args, 1, 0
  {
    if args == [] then Vals([], st)
    else
      match Eval(w, fuel, args[0], st)
      case Halt(c, s) => ArgsHalt(c, s)
      case Val(v, s) =>
        match EvalArgs(w, fuel, args[1..], s)
        case ArgsHalt(c, s') => ArgsHalt(c, s')
        case Vals(vs, s') => Vals([v] + vs, s')
  }

  // ---- Statements ----

  function ExecList(w: World, fuel: nat, l: seq<Stmt>, st: State): ExecResult
    decreases fuel, l, 1, 0
  {
    if l == [] then Fin(Next, st)
    else
      match Exec(w, fuel, l[0], st)
      case Fin(Next, s) => ExecList(w, fuel, l[1..], s)
      case r => r
  }

  function ExecOpt(w: World, fuel: nat, s: Option<Stmt>, st: State): ExecResult
    decreases fuel, s, 2, 0
  {
    match s
    case None => Fin(Next, st)
    case Some(t) => Exec(w, fuel, t, st)
  }

  function Exec(w: World, fuel: nat, s: Stmt, st: State): ExecResult
    decreases fuel, s, 1, 0
  {
    match s
    case ExprStmt(x) =>
      (match Eval(w, fuel, x, st)
       case Halt(c, s1) => Stop(c, s1)
       case Val(_, s1) => Fin(Next, s1))
    case AssignStmt(_, lhs, tok, rhs) =>
      (match Eval(w, fuel, rhs, st)
       case Halt(c, s1) => Stop(c, s1)
       case Val(v, s1) => StoreCombined(tok, lhs.id, v, s1))
    case IncDecStmt(_, target, inc) => StoreCombined(if inc then AddTok else SubTok, target.id, IntV(1), st)
    case IfStmt(_, init, cond, body, els) =>
      (match ExecOpt(w, fuel, init, st)
       case Fin(Next, s0) =>
         (match Eval(w, fuel, cond, s0)
          case Halt(c, s1) => Stop(c, s1)
          case Val(v, s1) =>
            if v == BoolV(true) then ExecList(w, fuel, body, s1)
            else if v == BoolV(false) then ExecOpt(w, fuel, els, s1)
            else Stop(Panicked, s1))
       case r => r)
    case ForStmt(_, init, _, _, _) =>
      (match ExecOpt(w, fuel, init, st)
       case Fin(Next, s0) => ForLoop(w, fuel, s, s0)
       case r => r)
    case RangeStmt(_, _, _, x, _) =>
      (match Eval(w, fuel, x, st)
       case Halt(c, s1) => Stop(c, s1)
       case Val(v, s1) =>
         match Elements(v)
         case None => Stop(Panicked, s1)
         case Some(items) => RangeLoop(w, fuel, s, items, 0, s1))
    case SwitchStmt(_, tag, clauses) =>
      (match Eval(w, fuel, tag, st)
       case Halt(c, s1) => Stop(c, s1)
       case Val(v, s1) =>
         match SelectClause(w, fuel, v, clauses, s1)
         case SelectHalt(c, s2) => Stop(c, s2)
         case Selected(Some(i), s2) => LeaveSwitch(ExecList(w, fuel, clauses[i].body, s2))
         case Selected(None, s2) =>
           match DefaultIndex(clauses)
           case None => Fin(Next, s2)
           case Some(i) => LeaveSwitch(ExecList(w, fuel, clauses[i].body, s2)))
    case ReturnStmt(_, result) =>
      (match result
       case None => Fin(Return(NilV), st)
       case Some(x) =>
         match Eval(w, fuel, x, st)
         case Halt(c, s1) => Stop(c, s1)
         case Val(v, s1) => Fin(Return(v), s1))
    case BranchStmt(_, isBreak) => Fin(if isBreak then Break else Continue, st)
    case BlockStmt(_, list) => ExecList(w, fuel, list, st)
    case ConstDecl(_, target, x) =>
      (match Eval(w, fuel, x, st)
       case Halt(c, s1) => Stop(c, s1)
       case Val(v, s1) => Fin(Next, Store(s1, target.id, v)))
    case EmptyStmt(_) => Fin(Next, st)
  }

  function StoreCombined(tok: AssignTok, name: string, v: Value, st: State): ExecResult {
    match Combine(tok, Lookup(st, name), v)
    case None => Stop(Panicked, st)
    case Some(r) => Fin(Next, Store(st, name, r))
  }

  function LeaveSwitch(r: ExecResult): ExecResult {
    match r
    case Fin(Break, s) => Fin(Next, s)
    case _ => r
  }

  function ForLoop(w: World, fuel: nat, s: Stmt, st: State): ExecResult
    requires s.ForStmt?
    decreases fuel, s, 0, 0
  {
    match EvalForCond(w, fuel, s, st)
    case Halt(c, s1) => Stop(c, s1)
    case Val(v, s1) =>
      if v == BoolV(false) then Fin(Next, s1)
      else if v != BoolV(true) then Stop(Panicked, s1)
      else if fuel == 0 then Stop(OutOfFuel, s1)
      else
        match ExecList(w, fuel - 1, s.body, s1)
        case Stop(c, s2) => Stop(c, s2)
        case Fin(Return(v2), s2) => Fin(Return(v2), s2)
        case Fin(Break, s2) => Fin(Next, s2)
        case Fin(_, s2) =>
          match ExecOpt(w, fuel - 1, s.post, s2)
          case Fin(Next, s3) => ForLoop(w, fuel - 1, s, s3)
          case r => r
  }

  function EvalForCond(w: World, fuel: nat, s: Stmt, st: State): EvalResult
    requires s.ForStmt?
    decreases fuel, s.forCond, 1, 0
  {
    match s.forCond
    case None => Val(BoolV(true), st)
    case Some(c) => Eval(w, fuel, c, st)
  }

  function RangeLoop(w: World, fuel: nat, s: Stmt, items: seq<Value>, i: nat, st: State): ExecResult
    requires s.RangeStmt?
    requires i <= |items|
    decreases fuel, s, 0, |items| - i
  {
    if i == |items| then Fin(Next, st)
    else
      match ExecList(w, fuel, s.body, StoreName(StoreName(st, s.key, IntV(i)), s.value, items[i]))
      case Stop(c, s2) => Stop(c, s2)
      case Fin(Return(v), s2) => Fin(Return(v), s2)
      case Fin(Break, s2) => Fin(Next, s2)
      case Fin(_, s2) => RangeLoop(w, fuel, s, items, i + 1, s2)
  }

  function SelectClause(w: World, fuel: nat, v: Value, cs: seq<Clause>, st: State): (r: SelectResult)
    ensures r.Selected? && r.index.Some? ==> r.index.value < |cs|
    decreases fuel, cs, 1, 0
  {
    if cs == [] then Selected(None, st)
    else
      match MatchClause(w, fuel, v, cs[0], st)
      case MatchHalt(c, s) => SelectHalt(c, s)
      case Matched(true, s) => Selected(Some(0), s)
      case Matched(false, s) =>
        match SelectClause(w, fuel, v, cs[1..], s)
        case Selected(Some(i), s') => Selected(Some(i + 1), s')
        case r => r
  }

  function MatchClause(w: World, fuel: nat, v: Value, c: Clause, st: State): MatchResult
    decreases fuel, c, 1, 0
  {
    if c.isDefault then Matched(false, st) else MatchAny(w, fuel, v, c.list, st)
  }

  function MatchAny(w: World, fuel: nat, v: Value, es: seq<Expr>, st: State): MatchResult
    decreases fuel, es, 1, 0
  {
    if es == [] then Matched(false, st)
    else
      match Eval(w, fuel, es[0], st)
      case Halt(c, s) => MatchHalt(c, s)
      case Val(x, s) => if x == v then Matched(true, s) else MatchAny(w, fuel, v, es[1..], s)
  }

  /** Runs the function `entry` of a file from a given global state. */
  function Run(funcs: seq<FuncDecl>, active: int, ext: (string, seq<Value>, seq<Event>) -> Value,
               entry: string, args: seq<Value>, st: State, fuel: nat): EvalResult
  {
    Invoke(World(funcs, active, ext), fuel, entry, args, st, Ident(0, entry))
  }
}
