/** What evaluation means and what it costs, said apart from the evaluator: rules one by one, plain
    Boolean logic, a cost that knows no list of live results, and ways down an expression. */
module EvalLaws {
  import opened Common
  import opened EvalMemory

  // ----- kinds of values

  /** The falsy values, all of them. */
  ghost predicate Falsy(v: Value) {
    v == Null || v == Bool(false) || v == Number(NaN) || v == Number(Finite(0.0)) || v == String("")
  }

  ghost predicate Collection(v: Value) {
    exists id :: v == Array(id) || v == Object(id)
  }

  lemma Kinds(v: Value)
    ensures IsFalsy(v) <==> Falsy(v)
    ensures IsPrimitive(v) <==> !Collection(v)
  {
    match v
    case Array(id) => assert Collection(v);
    case Object(id) => assert Collection(v);
    case _ =>
  }

  // ----- Boolean logic

  ghost predicate IsLogic(e: Expr)
    decreases e
  {
    match e
    case BoolLiteral(_) => true
    case NotExpr(inner) => IsLogic(inner)
    case Binary(op, lhs, rhs) => (op == And || op == Or) && IsLogic(lhs) && IsLogic(rhs)
    case _ => false
  }

  ghost function Truth(e: Expr): bool
    requires IsLogic(e)
    decreases e
  {
    match e
    case BoolLiteral(b) => b
    case NotExpr(inner) => !Truth(inner)
    case Binary(op, lhs, rhs) => if op == And then Truth(lhs) && Truth(rhs) else Truth(lhs) || Truth(rhs)
  }

  /** On Boolean literals, `!`, `&&` and `||` are negation, conjunction and disjunction. */
  lemma {:induction false} LogicIsLogic(env: Env, e: Expr)
    requires IsLogic(e)
    ensures Meaning(env, e) == Ok(Bool(Truth(e)))
    decreases e
  {
    match e
    case BoolLiteral(_) =>
    case NotExpr(inner) => LogicIsLogic(env, inner);
    case Binary(_, lhs, rhs) =>
      LogicIsLogic(env, lhs);
      LogicIsLogic(env, rhs);
  }

  // ----- the rules

  /** `e` evaluates to `r`, by one rule for each form and each way it can go. */
  ghost predicate Derives(env: Env, e: Expr, r: Result<Value, EvalError>)
    decreases e, 0
  {
    match e
    case NullLiteral => r == Ok(Null)
    case BoolLiteral(b) => r == Ok(Bool(b))
    case NumberLiteral(n) => r == Ok(Number(n))
    case StrLiteral(s) => r == Ok(String(s))
    case NamedValue(name) =>
      || (exists v :: env.root(name) == Some(v) && r == Ok(v))
      || (env.root(name) == None && r == Err(UnrecognizedNamedValue(name)))
    case NotExpr(inner) => DerivesNot(env, inner, r)
    case Binary(op, lhs, rhs) =>
      if op == And then DerivesAnd(env, lhs, rhs, r)
      else if op == Or then DerivesOr(env, lhs, rhs, r)
      else DerivesComparison(env, op, lhs, rhs, r)
    case Index(target, index) => DerivesIndex(env, target, index, r)
    case Wildcard(target) =>
      || (r.Err? && Gives(env, target, r))
      || (exists v :: Gives(env, target, Ok(v)) && r == Ok(env.filter(v).value))
    case Call(name, args) => DerivesCall(env, name, args, map[], Indices(|args|), r)
  }

  ghost predicate DerivesNot(env: Env, inner: Expr, r: Result<Value, EvalError>)
    decreases inner, 2
  {
    || (r.Err? && Gives(env, inner, r))
    || (exists v :: Gives(env, inner, Ok(v)) && Falsy(v) && r == Ok(Bool(true)))
    || (exists v :: Gives(env, inner, Ok(v)) && !Falsy(v) && r == Ok(Bool(false)))
  }

  /** The first falsy operand, or else the last one. */
  ghost predicate DerivesAnd(env: Env, lhs: Expr, rhs: Expr, r: Result<Value, EvalError>)
    decreases Binary(And, lhs, rhs), -1
  {
    || (r.Err? && Gives(env, lhs, r))
    || (exists v :: Gives(env, lhs, Ok(v)) && Falsy(v) && r == Ok(v))
    || (exists v :: Gives(env, lhs, Ok(v)) && !Falsy(v) && Gives(env, rhs, r))
  }

  /** The first truthy operand, or else the last one. */
  ghost predicate DerivesOr(env: Env, lhs: Expr, rhs: Expr, r: Result<Value, EvalError>)
    decreases Binary(Or, lhs, rhs), -1
  {
    || (r.Err? && Gives(env, lhs, r))
    || (exists v :: Gives(env, lhs, Ok(v)) && !Falsy(v) && r == Ok(v))
    || (exists v :: Gives(env, lhs, Ok(v)) && Falsy(v) && Gives(env, rhs, r))
  }

  ghost predicate DerivesComparison(env: Env, op: BinOp, lhs: Expr, rhs: Expr, r: Result<Value, EvalError>)
    decreases Binary(op, lhs, rhs), -1
  {
    || (r.Err? && Gives(env, lhs, r))
    || (exists v :: Gives(env, lhs, Ok(v)) && r.Err? && Gives(env, rhs, r))
    || (exists v, w :: Gives(env, lhs, Ok(v)) && Gives(env, rhs, Ok(w)) && r == Ok(Bool(env.compare(op, v, w))))
  }

  /** Into a primitive, the index is not evaluated. */
  ghost predicate DerivesIndex(env: Env, target: Expr, index: Expr, r: Result<Value, EvalError>)
    decreases Index(target, index), -1
  {
    || (r.Err? && Gives(env, target, r))
    || (exists v :: Gives(env, target, Ok(v)) && !Collection(v) && r == Ok(Null))
    || (exists v :: Gives(env, target, Ok(v)) && Collection(v) && r.Err? && Gives(env, index, r))
    || (exists v, w ::
          Gives(env, target, Ok(v)) && Collection(v) && Gives(env, index, Ok(w)) && r == Ok(env.access(v, w).value))
  }

  /** The same of an operand. */
  ghost predicate Gives(env: Env, e: Expr, r: Result<Value, EvalError>)
    decreases e, 1
  {
    Derives(env, e, r)
  }

  /** A call that knows some arguments evaluates to `r`; `left` are those not asked for yet. */
  ghost predicate DerivesCall(env: Env, name: string, args: seq<Expr>, known: map<nat, Value>, left: set<nat>,
                              r: Result<Value, EvalError>)
    decreases args, 2, |left|
  {
    var step := env.builtin(name, |args|, known).step;
    || (exists v :: step == Finish(v) && r == Ok(v))
    || (exists message :: step == Fail(message) && r == Err(CallFailed(message)))
    || (step.Ask? && (step.arg >= |args| || step.arg !in left) && r == Err(CallFailed("")))
    || (step.Ask? && step.arg < |args| && step.arg in left && r.Err? && Gives(env, args[step.arg], r))
    || (step.Ask? && step.arg < |args| && step.arg in left && exists v ::
          && Gives(env, args[step.arg], Ok(v))
          && DerivesCall(env, name, args, known[step.arg := v], left - {step.arg}, r))
  }

  /** The rules give every expression exactly one result, and it is its meaning. */
  lemma {:induction false} MeaningByRules(env: Env, e: Expr, r: Result<Value, EvalError>)
    ensures Derives(env, e, r) <==> Meaning(env, e) == r
    decreases e, 0
  {
    hide Gives, DerivesNot, DerivesAnd, DerivesOr, DerivesComparison, DerivesIndex, DerivesCall, CallMeaning;
    match e
    case NotExpr(inner) => RuleForNot(env, inner, r);
    case Binary(op, lhs, rhs) => RuleForBinary(env, op, lhs, rhs, r);
    case Index(target, index) => RuleForIndex(env, target, index, r);
    case Wildcard(target) => RuleForWildcard(env, target, r);
    case Call(name, args) => CallByRules(env, name, args, map[], Indices(|args|), r);
    case _ =>
  }

  /** A call may ask for each of its arguments. */
  lemma {:induction false} AllIndices(n: nat, i: nat)
    ensures i in Indices(n) <==> i < n
  {
    if n > 0 {
      AllIndices(n - 1, i);
    }
  }

  /** The operand of a rule, whatever its result. */
  lemma {:induction false} Operand(env: Env, e: Expr)
    ensures forall r :: Gives(env, e, r) <==> Meaning(env, e) == r
    decreases e, 1
  {
    hide Derives, Meaning;
    forall r
      ensures Gives(env, e, r) <==> Meaning(env, e) == r
    {
      MeaningByRules(env, e, r);
    }
  }

  lemma {:induction false} NotStep(env: Env, inner: Expr, m: Result<Value, EvalError>)
    requires m == Meaning(env, inner)
    ensures Meaning(env, NotExpr(inner)) == if m.Err? then m else Ok(Bool(IsFalsy(m.value)))
  {
  }

  lemma {:induction false} BinaryStep(env: Env, op: BinOp, lhs: Expr, rhs: Expr)
    ensures var l, r := Meaning(env, lhs), Meaning(env, rhs);
            Meaning(env, Binary(op, lhs, rhs)) ==
              if l.Err? then l
              else if op == And then (if IsFalsy(l.value) then l else r)
              else if op == Or then (if IsFalsy(l.value) then r else l)
              else if r.Err? then r else Ok(Bool(env.compare(op, l.value, r.value)))
  {
  }

  lemma {:induction false} IndexStep(env: Env, target: Expr, index: Expr)
    ensures var t, i := Meaning(env, target), Meaning(env, index);
            Meaning(env, Index(target, index)) ==
              if t.Err? then t else if IsPrimitive(t.value) then Ok(Null)
              else if i.Err? then i else Ok(env.access(t.value, i.value).value)
  {
  }

  lemma {:induction false} RuleForNot(env: Env, inner: Expr, r: Result<Value, EvalError>)
    ensures DerivesNot(env, inner, r) <==> Meaning(env, NotExpr(inner)) == r
    decreases inner, 2
  {
    hide Gives, Falsy, Meaning, IsFalsy;
    Operand(env, inner);
    NotStep(env, inner, Meaning(env, inner));
    if Meaning(env, inner).Ok? {
      Kinds(Meaning(env, inner).value);
    }
  }

  lemma {:induction false} RuleForBinary(env: Env, op: BinOp, lhs: Expr, rhs: Expr, r: Result<Value, EvalError>)
    ensures Meaning(env, Binary(op, lhs, rhs)) == r <==>
              if op == And then DerivesAnd(env, lhs, rhs, r)
              else if op == Or then DerivesOr(env, lhs, rhs, r)
              else DerivesComparison(env, op, lhs, rhs, r)
    decreases Binary(op, lhs, rhs), -1
  {
    hide Gives, Falsy, Meaning, IsFalsy;
    Operand(env, lhs);
    Operand(env, rhs);
    BinaryStep(env, op, lhs, rhs);
    if Meaning(env, lhs).Ok? {
      Kinds(Meaning(env, lhs).value);
    }
  }

  lemma {:induction false} RuleForIndex(env: Env, target: Expr, index: Expr, r: Result<Value, EvalError>)
    ensures DerivesIndex(env, target, index, r) <==> Meaning(env, Index(target, index)) == r
    decreases Index(target, index), -1
  {
    hide Gives, Collection, Meaning, IsPrimitive;
    Operand(env, target);
    Operand(env, index);
    IndexStep(env, target, index);
    if Meaning(env, target).Ok? {
      Kinds(Meaning(env, target).value);
    }
  }

  lemma {:induction false} RuleForWildcard(env: Env, target: Expr, r: Result<Value, EvalError>)
    ensures Derives(env, Wildcard(target), r) <==> Meaning(env, Wildcard(target)) == r
    decreases target, 2
  {
    hide Gives;
    Operand(env, target);
  }

  lemma {:induction false} CallByRules(env: Env, name: string, args: seq<Expr>, known: map<nat, Value>, left: set<nat>,
                                       r: Result<Value, EvalError>)
    ensures DerivesCall(env, name, args, known, left, r) <==> CallMeaning(env, name, args, known, left) == r
    decreases args, 1, |left|
  {
    hide Gives, Meaning;
    var step := env.builtin(name, |args|, known).step;
    if step.Ask? && step.arg < |args| && step.arg in left {
      Operand(env, args[step.arg]);
      var v := Meaning(env, args[step.arg]);
      if v.Ok? {
        CallByRules(env, name, args, known[step.arg := v.value], left - {step.arg}, r);
      }
    }
  }

  // ----- what it costs

  /** A string costs 26 bytes and two for each UTF-16 code unit, everything else 24. */
  function Bytes(v: Value): nat {
    match v
    case String(s) => 26 + 2 * Utf16Length(s)
    case _ => 24
  }

  /** Literals, context roots that are primitive, `!` and binary operators. */
  ghost predicate IsPlain(env: Env, e: Expr)
    decreases e
  {
    match e
    case NullLiteral => true
    case BoolLiteral(_) => true
    case NumberLiteral(_) => true
    case StrLiteral(_) => true
    case NamedValue(name) => env.root(name).Some? && !Collection(env.root(name).value)
    case NotExpr(inner) => IsPlain(env, inner)
    case Binary(_, lhs, rhs) => IsPlain(env, lhs) && IsPlain(env, rhs)
    case _ => false
  }

  lemma {:induction false} PlainHasPrimitiveValue(env: Env, e: Expr)
    requires IsPlain(env, e)
    ensures Meaning(env, e).Ok? && !Collection(Meaning(env, e).value)
    decreases e
  {
    match e
    case NotExpr(inner) => PlainHasPrimitiveValue(env, inner);
    case Binary(_, lhs, rhs) =>
      PlainHasPrimitiveValue(env, lhs);
      PlainHasPrimitiveValue(env, rhs);
    case _ =>
  }

  /** What the result of an operand occupies while its sibling is evaluated: a value that comes
      from the context is held with its wrapper. */
  ghost function Weight(env: Env, e: Expr): nat
    requires Meaning(env, e).Ok?
  {
    Bytes(Meaning(env, e).value) + if e.NamedValue? then 24 else 0
  }

  /** The most bytes alive at once: an operand is evaluated while the results before it are held,
      and they are all gone when the operator's own result is there. */
  ghost function Cost(env: Env, e: Expr): nat
    requires IsPlain(env, e)
    decreases e
  {
    PlainHasPrimitiveValue(env, e);
    match e
    case NotExpr(inner) => Largest(Cost(env, inner), 0, 24)
    case Binary(op, lhs, rhs) =>
      PlainHasPrimitiveValue(env, lhs);
      var v := Meaning(env, lhs).value;
      var whole := Bytes(Meaning(env, e).value);
      if (op == And && Falsy(v)) || (op == Or && !Falsy(v)) then Largest(Cost(env, lhs), 0, whole)
      else Largest(Cost(env, lhs), Weight(env, lhs) + Cost(env, rhs), whole)
    case _ => Weight(env, e)
  }

  function Largest(a: nat, b: nat, c: nat): (m: nat)
    ensures m >= a && m >= b && m >= c && (m == a || m == b || m == c)
  {
    if a >= b && a >= c then a else if b >= c then b else c
  }

  lemma BytesAre(v: Value)
    ensures ValueBytes(v) == Bytes(v)
  {
  }

  /** A primitive result that is not from the context drives out everything deeper. */
  lemma AddedPlain(live: seq<Live>, deeper: seq<Live>, depth: nat, v: Value)
    requires forall l :: l in live ==> l.depth <= depth
    requires forall l :: l in deeper ==> l.depth > depth
    requires !Collection(v)
    ensures Added(live + deeper, depth, v, PLAIN) == live + [Live(depth, Bytes(v))]
  {
    hide Kept;
    Kinds(v);
    BytesAre(v);
    KeptSplit(live, deeper, depth);
  }

  lemma {:induction false} KeptSplit(live: seq<Live>, deeper: seq<Live>, depth: nat)
    requires forall l :: l in live ==> l.depth <= depth
    requires forall l :: l in deeper ==> l.depth > depth
    ensures Kept(live + deeper, depth) == live
    decreases |deeper|
  {
    hide Kept;
    if deeper == [] {
      assert live + deeper == live;
      KeptAll(live, depth);
    } else {
      var all, last := live + deeper, |deeper| - 1;
      assert all[..|all| - 1] == live + deeper[..last];
      KeptStep(all, depth);
      KeptSplit(live, deeper[..last], depth);
    }
  }

  lemma AddedLeaf(live: seq<Live>, depth: nat, v: Value, m: ResultMemory)
    requires forall l :: l in live ==> l.depth <= depth
    ensures Added(live, depth, v, m) == live + [Live(depth, ResultBytes(v, m))]
  {
    KeptAll(live, depth);
  }

  /** Evaluating a plain expression on top of results that are no deeper: they stay, its own is
      added, and the peak is theirs plus its cost. */
  lemma {:induction false} PlainFootprint(env: Env, e: Expr, depth: nat, live: seq<Live>)
    requires IsPlain(env, e) && forall l :: l in live ==> l.depth <= depth
    ensures Meaning(env, e).Ok?
    ensures Footprint(env, e, depth, live) == (live + [Live(depth, Weight(env, e))], Sum(live) + Cost(env, e))
    decreases e, 0
  {
    hide Footprint, Cost, Meaning, Weight, Sum;
    PlainHasPrimitiveValue(env, e);
    match e
    case NotExpr(inner) => NotFootprint(env, inner, depth, live);
    case Binary(op, lhs, rhs) => BinaryFootprint(env, op, lhs, rhs, depth, live);
    case _ => LeafFootprint(env, e, depth, live);
  }

  lemma {:induction false} LeafFootprint(env: Env, e: Expr, depth: nat, live: seq<Live>)
    requires IsPlain(env, e) && !e.NotExpr? && !e.Binary? && forall l :: l in live ==> l.depth <= depth
    ensures Meaning(env, e).Ok?
    ensures Footprint(env, e, depth, live) == (live + [Live(depth, Weight(env, e))], Sum(live) + Cost(env, e))
  {
    hide Sum, Added;
    PlainHasPrimitiveValue(env, e);
    var v := Meaning(env, e).value;
    Kinds(v);
    BytesAre(v);
    AddedLeaf(live, depth, v, Accounting(env, e, v));
    SumAppend(live, Live(depth, Weight(env, e)));
  }

  lemma {:induction false} NotFootprint(env: Env, inner: Expr, depth: nat, live: seq<Live>)
    requires IsPlain(env, inner) && forall l :: l in live ==> l.depth <= depth
    ensures Meaning(env, NotExpr(inner)).Ok?
    ensures Footprint(env, NotExpr(inner), depth, live)
         == (live + [Live(depth, Weight(env, NotExpr(inner)))], Sum(live) + Cost(env, NotExpr(inner)))
    decreases inner, 1
  {
    hide Sum, Added;
    PlainHasPrimitiveValue(env, inner);
    PlainFootprint(env, inner, depth + 1, live);
    var v := Meaning(env, NotExpr(inner)).value;
    AddedPlain(live, [Live(depth + 1, Weight(env, inner))], depth, v);
    SumAppend(live, Live(depth, 24));
  }

  /** Whether the right operand is not asked for. */
  ghost predicate Settled(op: BinOp, v: Value) {
    (op == And && Falsy(v)) || (op == Or && !Falsy(v))
  }

  lemma {:induction false} FootprintStep(env: Env, op: BinOp, lhs: Expr, rhs: Expr, depth: nat, live: seq<Live>)
    requires Meaning(env, lhs).Ok? && Meaning(env, Binary(op, lhs, rhs)).Ok?
    ensures var (afterLeft, leftPeak) := Footprint(env, lhs, depth + 1, live);
            var (afterRight, rightPeak) := Footprint(env, rhs, depth + 1, afterLeft);
            var settled := Settled(op, Meaning(env, lhs).value);
            var v := Meaning(env, Binary(op, lhs, rhs)).value;
            var all := Added(if settled then afterLeft else afterRight, depth, v, PLAIN);
            Footprint(env, Binary(op, lhs, rhs), depth, live)
            == (all, Max(if settled then leftPeak else Max(leftPeak, rightPeak), Sum(all)))
  {
    hide Sum, Added, Meaning, IsFalsy, Falsy;
    Kinds(Meaning(env, lhs).value);
  }

  lemma {:induction false} CostStep(env: Env, op: BinOp, lhs: Expr, rhs: Expr)
    requires IsPlain(env, lhs) && IsPlain(env, rhs)
    ensures Meaning(env, lhs).Ok? && Meaning(env, Binary(op, lhs, rhs)).Ok?
    ensures var whole := Bytes(Meaning(env, Binary(op, lhs, rhs)).value);
            var both := if Settled(op, Meaning(env, lhs).value) then 0 else Weight(env, lhs) + Cost(env, rhs);
            Cost(env, Binary(op, lhs, rhs)) == Largest(Cost(env, lhs), both, whole)
  {
    hide Meaning, Falsy;
    PlainHasPrimitiveValue(env, lhs);
    PlainHasPrimitiveValue(env, Binary(op, lhs, rhs));
  }

  lemma {:induction false} BinaryFootprint(env: Env, op: BinOp, lhs: Expr, rhs: Expr, depth: nat, live: seq<Live>)
    requires IsPlain(env, lhs) && IsPlain(env, rhs) && forall l :: l in live ==> l.depth <= depth
    ensures Meaning(env, Binary(op, lhs, rhs)).Ok?
    ensures var e := Binary(op, lhs, rhs);
            Footprint(env, e, depth, live) == (live + [Live(depth, Weight(env, e))], Sum(live) + Cost(env, e))
    decreases Binary(op, lhs, rhs), -1
  {
    hide Sum, Added, Meaning, Footprint, Cost, Settled;
    var e := Binary(op, lhs, rhs);
    PlainHasPrimitiveValue(env, e);
    CostStep(env, op, lhs, rhs);
    FootprintStep(env, op, lhs, rhs, depth, live);
    var l, v := Live(depth + 1, Weight(env, lhs)), Meaning(env, e).value;
    PlainFootprint(env, lhs, depth + 1, live);
    PlainHasPrimitiveValue(env, rhs);
    SumAppend(live, l);
    SumAppend(live, Live(depth, Bytes(v)));
    AddedPlain(live, [l], depth, v);
    var r := Live(depth + 1, Weight(env, rhs));
    PlainFootprint(env, rhs, depth + 1, live + [l]);
    assert live + [l] + [r] == live + [l, r];
    AddedPlain(live, [l, r], depth, v);
  }

  /** The smallest sufficient limit of a plain expression is its cost. */
  lemma PeakIsCost(env: Env, e: Expr)
    requires IsPlain(env, e)
    ensures Peak(env, e) == Cost(env, e)
  {
    hide Footprint, Cost;
    PlainFootprint(env, e, 0, []);
    SumOfNothing();
  }

  /** A filter on a collection from the context holds the collection, the wildcard, and the
      filtered array at once. */
  lemma WildcardPeak(env: Env, name: string, c: Value)
    requires env.root(name) == Some(c) && Collection(c) && Collection(env.filter(c).value)
    ensures var bytes := env.filter(c).bytes;
            Peak(env, Wildcard(NamedValue(name))) == 24 + 28 + if bytes.Some? then bytes.value else 24
  {
    hide Sum, Kept;
    var e, f := Wildcard(NamedValue(name)), env.filter(c);
    Kinds(c);
    Kinds(f.value);
    StarBytes();
    RootFootprint(env, name, c, 1);
    var root, star := Live(1, 24), Live(1, 28);
    AddedLeaf([root], 1, STAR, PLAIN);
    var all := [root] + [star];
    Held(24);
    SumAppend([root], star);
    assert Operands(env, e, 0, []) == (all, Max(24, Sum(all)));
    var last := Live(0, if f.bytes.Some? then f.bytes.value else 24);
    assert Added(all, 0, f.value, Accounting(env, e, f.value)) == all + [last];
    SumAppend(all, last);
  }

  lemma Held(bytes: nat)
    ensures Sum([]) == 0 && forall d :: Sum([Live(d, bytes)]) == bytes
  {
    forall d: nat
      ensures Sum([Live(d, bytes)]) == bytes
    {
      SumAppend([], Live(d, bytes));
      assert [] + [Live(d, bytes)] == [Live(d, bytes)];
    }
  }

  lemma StarBytes()
    ensures ValueBytes(STAR) == 28
  {
    assert "*"[1..] == "";
    assert Utf16Length("*") == 1;
  }

  lemma RootFootprint(env: Env, name: string, c: Value, depth: nat)
    requires env.root(name) == Some(c) && Collection(c)
    ensures Footprint(env, NamedValue(name), depth, []) == ([Live(depth, 24)], 24)
  {
    hide Kept;
    Kinds(c);
    BytesAre(c);
    SumOfNothing();
    SumAppend([], Live(depth, 24));
    assert [] + [Live(depth, 24)] == [Live(depth, 24)];
  }

  /** An element taken from a collection of the context is held with the collection and the index;
      a primitive one comes with its wrapper and drives nothing out. */
  lemma IndexPeak(env: Env, name: string, c: Value, key: string)
    requires env.root(name) == Some(c) && Collection(c)
    requires var a := env.access(c, String(key)); a.hasRaw || Collection(a.value)
    ensures var a := env.access(c, String(key));
            Peak(env, Index(NamedValue(name), StrLiteral(key)))
            == 24 + (26 + 2 * Utf16Length(key)) + if a.bytes.Some? then a.bytes.value else Bytes(a.value)
  {
    hide Sum, Kept, Utf16Length;
    var e, a := Index(NamedValue(name), StrLiteral(key)), env.access(c, String(key));
    Kinds(c);
    Kinds(a.value);
    BytesAre(a.value);
    RootFootprint(env, name, c, 1);
    var root, index := Live(1, 24), Live(1, 26 + 2 * Utf16Length(key));
    PlainFootprint(env, StrLiteral(key), 1, [root]);
    var all := [root] + [index];
    Held(24);
    SumAppend([root], index);
    assert Operands(env, e, 0, []) == (all, Max(24, Sum(all)));
    var last := Live(0, if a.bytes.Some? then a.bytes.value else Bytes(a.value));
    assert Added(all, 0, a.value, Accounting(env, e, a.value)) == all + [last];
    SumAppend(all, last);
  }

  /** A function of one argument counts what it builds, and holds the argument meanwhile. */
  lemma CallPeak(env: Env, name: string, arg: Expr, before: nat, after: nat, w: Value)
    requires IsPlain(env, arg) && !Collection(w) && !IsFromJson(name)
    requires Meaning(env, arg).Ok?
    requires env.builtin(name, 1, map[]) == Move(before, Ask(0))
    requires env.builtin(name, 1, map[0 := Meaning(env, arg).value]) == Move(after, Finish(w))
    ensures Meaning(env, Call(name, [arg])) == Ok(w)
    ensures Peak(env, Call(name, [arg])) == Largest(before + after, Cost(env, arg), Bytes(w))
  {
    hide Sum, Kept, Cost, Meaning, Footprint, CallMeaning, CallFootprint;
    var e := Call(name, [arg]);
    OneArgument(env, name, arg, before, after, w);
    Kinds(w);
    PlainFootprint(env, arg, 1, []);
    CostCoversWeight(env, arg);
    var held := Live(1, Weight(env, arg));
    Held(held.bytes);
    Held(Bytes(w));
    assert [] + [held] == [held];
    AddedPlain([], [held], 0, w);
    assert [] + [Live(0, Bytes(w))] == [Live(0, Bytes(w))];
  }

  /** The two steps of such a function. */
  lemma {:induction false} OneArgument(env: Env, name: string, arg: Expr, before: nat, after: nat, w: Value)
    requires Meaning(env, arg).Ok? && !IsFromJson(name)
    requires env.builtin(name, 1, map[]) == Move(before, Ask(0))
    requires env.builtin(name, 1, map[0 := Meaning(env, arg).value]) == Move(after, Finish(w))
    ensures Meaning(env, Call(name, [arg])) == Ok(w)
    ensures var (held, peak) := Footprint(env, arg, 1, []);
            var all := Added(held, 0, w, PLAIN);
            Footprint(env, Call(name, [arg]), 0, [])
            == (all, Max(Max(Max(Max(Sum([]), before), peak), Max(Sum(held), before + after)), Sum(all)))
  {
    hide Sum, Added;
    var v, args := Meaning(env, arg).value, [arg];
    AllIndices(1, 0);
    var left := Indices(1);
    var known: map<nat, Value> := map[];
    assert known[0 := v] == map[0 := v];
    var (held, peak) := Footprint(env, arg, 1, []);
    LastMove(env, name, args, known[0 := v], left - {0}, 1, held, before);
    assert CallMeaning(env, name, args, known, left) == Ok(w);
    assert CallFootprint(env, name, args, known, left, 1, [], 0)
        == (held, Max(Max(Max(Sum([]), before), peak), Max(Sum(held), before + after)));
  }

  lemma {:induction false} LastMove(env: Env, name: string, args: seq<Expr>, known: map<nat, Value>, left: set<nat>,
                                    depth: nat, live: seq<Live>, count: nat)
    requires env.builtin(name, |args|, known).step.Finish?
    ensures var move := env.builtin(name, |args|, known);
            && CallMeaning(env, name, args, known, left) == Ok(move.step.value)
            && CallFootprint(env, name, args, known, left, depth, live, count)
               == (live, Max(Sum(live), count + move.charge))
  {
  }

  lemma {:induction false} CostCoversWeight(env: Env, e: Expr)
    requires IsPlain(env, e)
    ensures Meaning(env, e).Ok? && Weight(env, e) <= Cost(env, e)
  {
    PlainHasPrimitiveValue(env, e);
  }

  /** Names are compared without regard to case. */
  lemma FromJsonNames(name: string)
    ensures IsFromJson(name) <==>
              && |name| == 8
              && name[0] in {'f', 'F'} && name[1] in {'r', 'R'} && name[2] in {'o', 'O'} && name[3] in {'m', 'M'}
              && name[4] in {'j', 'J'} && name[5] in {'s', 'S'} && name[6] in {'o', 'O'} && name[7] in {'n', 'N'}
  {
    if |name| == 8 {
      assert forall k :: 0 <= k < 8 ==>
               (Lower(name[k]) == "fromjson"[k] <==> name[k] == "fromjson"[k] || name[k] == "FROMJSON"[k]);
    }
  }

  lemma DefaultLimit(configured: nat)
    ensures EffectiveMax(configured) == if configured == 0 then 1_048_576 else configured
  {
  }

  // ----- how deep it is

  /** `c` is an immediate operand of `e`. */
  ghost predicate IsOperand(e: Expr, c: Expr) {
    || e == NotExpr(c)
    || e == Wildcard(c)
    || (e.Binary? && (c == e.lhs || c == e.rhs))
    || (e.Index? && (c == e.target || c == e.index))
    || (e.Call? && c in e.args)
  }

  /** A way down: each node is an operand of the one before it. */
  ghost predicate IsDescent(p: seq<Expr>) {
    p != [] && forall i :: 0 <= i < |p| - 1 ==> IsOperand(p[i], p[i + 1])
  }

  lemma {:induction false} InTallest(es: seq<Expr>, c: Expr)
    requires c in es
    ensures Height(c) <= Tallest(es)
    decreases |es|
  {
    var last := |es| - 1;
    if c != es[last] {
      assert c in es[..last];
      InTallest(es[..last], c);
    }
  }

  lemma {:induction false} TallestIn(es: seq<Expr>) returns (c: Expr)
    requires es != []
    ensures c in es && Height(c) == Tallest(es)
    decreases |es|
  {
    var last := |es| - 1;
    c := es[last];
    if last > 0 {
      var d := TallestIn(es[..last]);
      if Height(d) > Height(c) {
        c := d;
      }
    }
  }

  lemma OperandLower(e: Expr, c: Expr)
    requires IsOperand(e, c)
    ensures Height(c) < Height(e)
  {
    if e.Call? {
      InTallest(e.args, c);
    }
  }

  /** No way down is longer than the height. */
  lemma {:induction false} DescentsFit(p: seq<Expr>)
    requires IsDescent(p)
    ensures |p| <= Height(p[0])
    decreases |p|
  {
    hide Height, IsOperand;
    HeightPositive(p[0]);
    if |p| > 1 {
      var q := p[1..];
      forall i | 0 <= i < |q| - 1
        ensures IsOperand(q[i], q[i + 1])
      {
        assert IsOperand(p[i + 1], p[i + 1 + 1]);
      }
      DescentsFit(q);
      assert IsOperand(p[0], p[0 + 1]);
      OperandLower(p[0], p[1]);
    }
  }

  lemma HeightPositive(e: Expr)
    ensures Height(e) > 0
  {
  }

  /** And one is just as long. */
  lemma {:induction false} LongestDescent(e: Expr) returns (p: seq<Expr>)
    ensures IsDescent(p) && p[0] == e && |p| == Height(e)
    decreases Height(e)
  {
    p := [e];
    if Height(e) > 1 {
      var c := TallerOperand(e);
      hide IsOperand;
      var q := LongestDescent(c);
      p := [e] + q;
      forall i | 0 <= i < |p| - 1
        ensures IsOperand(p[i], p[i + 1])
      {
        if i > 0 {
          assert IsOperand(q[i - 1], q[i - 1 + 1]);
        }
      }
    }
  }

  lemma TallerOperand(e: Expr) returns (c: Expr)
    requires Height(e) > 1
    ensures IsOperand(e, c) && Height(e) == 1 + Height(c)
  {
    match e
    case NotExpr(inner) => c := inner;
    case Wildcard(target) => c := target;
    case Binary(_, lhs, rhs) => c := if Height(lhs) >= Height(rhs) then lhs else rhs;
    case Index(target, index) => c := if Height(target) >= Height(index) then target else index;
    case Call(_, args) => c := TallestIn(args);
    case _ =>
  }

  /** So an expression is too deep exactly when some way down has more than fifty nodes. */
  lemma TooDeepMeans(e: Expr)
    ensures Height(e) > MAX_EXPRESSION_DEPTH <==> exists p :: IsDescent(p) && p[0] == e && |p| > 50
  {
    var p := LongestDescent(e);
    forall q | IsDescent(q) && q[0] == e
      ensures |q| <= Height(e)
    {
      DescentsFit(q);
    }
  }
}
