/** Expression evaluation under a live-result memory budget.

    The tracker keeps one byte count per tree depth.  It is compared with a plain list of live
    results, and evaluation under a limit with evaluation without one. */
module EvalMemory {
  import opened Common

  const MIN_OBJECT_BYTES: nat := 24
  const STRING_BASE_BYTES: nat := 26
  const DEFAULT_MAX_MEMORY_BYTES: nat := 1_048_576

  /** A double: the evaluator only asks whether it is zero or not a number. */
  datatype Num = NaN | Infinite(negative: bool) | Finite(value: real)

  /** Arrays and objects are told apart by identity only. */
  datatype Value = Null | Bool(b: bool) | Number(n: Num) | String(s: string) | Array(id: nat) | Object(id: nat)

  datatype BinOp = Eq | NotEq | Lt | Le | Gt | Ge | And | Or

  datatype Expr =
    | NullLiteral
    | BoolLiteral(b: bool)
    | NumberLiteral(n: Num)
    | StrLiteral(s: string)
    | NamedValue(name: string)
    | NotExpr(inner: Expr)
    | Binary(op: BinOp, lhs: Expr, rhs: Expr)
    | Index(target: Expr, index: Expr)
    | Wildcard(target: Expr)
    | Call(name: string, args: seq<Expr>)

  datatype EvalError =
    | UnrecognizedNamedValue(name: string)
    | CallFailed(message: string)
    | ExpressionTooDeep
    | MemoryLimitExceeded(maxBytes: nat)

  /** What a built-in function does once it knows some of its arguments: it counts the bytes of
      what it has built since, and then ends or asks for one more argument.  Arguments are asked
      for at most once, and those it never asks for are never evaluated. */
  datatype Move = Move(charge: nat, step: Step)

  datatype Step = Finish(value: Value) | Fail(message: string) | Ask(arg: nat)

  /** An element or a filtered array, and the bytes it is accounted for with. */
  datatype Access = Access(value: Value, bytes: Option<nat>, hasRaw: bool)

  /** What evaluation depends on: the context roots, the comparison operators, access to
      collections, and the built-in functions by name, number of arguments, and what they know. */
  datatype Env = Env(
    root: string -> Option<Value>,
    compare: (BinOp, Value, Value) -> bool,
    access: (Value, Value) -> Access,
    filter: Value -> Access,
    builtin: (string, nat, map<nat, Value>) -> Move)

  predicate IsFalsy(v: Value) {
    match v
    case Null => true
    case Bool(b) => !b
    case Number(n) => n == NaN || n == Finite(0.0)
    case String(s) => s == ""
    case Array(_) | Object(_) => false
  }

  predicate IsPrimitive(v: Value) {
    v.Null? || v.Bool? || v.Number? || v.String?
  }

  function ValueBytes(v: Value): nat {
    if v.String? then STRING_BASE_BYTES + 2 * Utf16Length(v.s) else MIN_OBJECT_BYTES
  }

  /** A context root that is primitive is accounted for together with its wrapper. */
  function WrappedPrimitiveBytes(v: Value): Option<nat> {
    if IsPrimitive(v) then Some(MIN_OBJECT_BYTES + ValueBytes(v)) else None
  }

  datatype ResultMemory = ResultMemory(bytes: Option<nat>, isTotal: bool, hasRaw: bool)

  const PLAIN: ResultMemory := ResultMemory(None, false, false)

  function ResultBytes(v: Value, m: ResultMemory): nat {
    if m.bytes.Some? then m.bytes.value else ValueBytes(v)
  }

  predicate Trims(v: Value, m: ResultMemory) {
    m.isTotal || (IsPrimitive(v) && !m.hasRaw)
  }

  // ----- the plain list of live results

  datatype Live = Live(depth: nat, bytes: nat)

  function Sum(live: seq<Live>): nat {
    if live == [] then 0 else Sum(live[..|live| - 1]) + live[|live| - 1].bytes
  }

  function SumAt(live: seq<Live>, depth: nat): nat {
    if live == [] then 0
    else SumAt(live[..|live| - 1], depth) + if live[|live| - 1].depth == depth then live[|live| - 1].bytes else 0
  }

  /** The results that survive when everything deeper is dropped. */
  function Kept(live: seq<Live>, depth: nat): seq<Live> {
    if live == [] then []
    else Kept(live[..|live| - 1], depth) + if live[|live| - 1].depth <= depth then [live[|live| - 1]] else []
  }

  function Trimmed(live: seq<Live>, depth: nat, trim: bool): seq<Live> {
    if trim then Kept(live, depth) else live
  }

  function Added(live: seq<Live>, depth: nat, v: Value, m: ResultMemory): seq<Live> {
    Trimmed(live, depth, Trims(v, m)) + [Live(depth, ResultBytes(v, m))]
  }

  lemma {:induction false} SumAppend(live: seq<Live>, l: Live)
    ensures Sum(live + [l]) == Sum(live) + l.bytes
  {
    assert (live + [l])[..|live|] == live;
  }

  lemma {:induction false} SumAtAppend(live: seq<Live>, l: Live, d: nat)
    ensures SumAt(live + [l], d) == SumAt(live, d) + if l.depth == d then l.bytes else 0
  {
    assert (live + [l])[..|live|] == live;
  }

  lemma {:induction false} SumsAppend(live: seq<Live>, l: Live)
    ensures Sum(live + [l]) == Sum(live) + l.bytes
    ensures forall d :: SumAt(live + [l], d) == SumAt(live, d) + if l.depth == d then l.bytes else 0
  {
    hide Sum, SumAt;
    SumAppend(live, l);
    forall d: nat {
      SumAtAppend(live, l, d);
    }
  }

  lemma {:induction false} KeptStep(live: seq<Live>, depth: nat)
    requires live != []
    ensures var front, l := live[..|live| - 1], live[|live| - 1];
            Kept(live, depth) == if l.depth <= depth then Kept(front, depth) + [l] else Kept(front, depth)
  {
    var front := live[..|live| - 1];
    assert Kept(front, depth) + [] == Kept(front, depth);
  }

  lemma {:induction false} KeptSum(live: seq<Live>, depth: nat)
    requires depth > 0
    ensures Sum(Kept(live, depth)) == Sum(Kept(live, depth - 1)) + SumAt(live, depth)
  {
    hide Sum;
    if live != [] {
      var front, l := live[..|live| - 1], live[|live| - 1];
      KeptSum(front, depth);
      KeptStep(live, depth);
      KeptStep(live, depth - 1);
      SumAppend(Kept(front, depth), l);
      SumAppend(Kept(front, depth - 1), l);
    }
  }

  lemma {:induction false} KeptSumAt(live: seq<Live>, depth: nat, d: nat)
    ensures SumAt(Kept(live, depth), d) == if d <= depth then SumAt(live, d) else 0
  {
    if live != [] {
      hide Kept;
      KeptSumAt(live[..|live| - 1], depth, d);
      KeptStep(live, depth);
      SumAtAppend(Kept(live[..|live| - 1], depth), live[|live| - 1], d);
    }
  }

  lemma {:induction false} KeptAll(live: seq<Live>, depth: nat)
    requires forall l :: l in live ==> l.depth <= depth
    ensures Kept(live, depth) == live
  {
    hide Kept;
    if live == [] {
      KeptNothing(depth);
    } else {
      KeptAll(live[..|live| - 1], depth);
      KeptStep(live, depth);
    }
  }

  lemma {:induction false} KeptDepths(live: seq<Live>, depth: nat)
    ensures forall l :: l in Kept(live, depth) ==> l.depth <= depth && l in live
  {
    if live != [] {
      KeptDepths(live[..|live| - 1], depth);
      KeptStep(live, depth);
    }
  }

  lemma {:induction false} KeptLess(live: seq<Live>, depth: nat)
    ensures Sum(Kept(live, depth)) <= Sum(live)
  {
    if live != [] {
      hide Kept;
      KeptLess(live[..|live| - 1], depth);
      KeptStep(live, depth);
      SumAppend(Kept(live[..|live| - 1], depth), live[|live| - 1]);
    }
  }

  lemma {:induction false} NothingAt(live: seq<Live>, d: nat)
    requires forall l :: l in live ==> l.depth != d
    ensures SumAt(live, d) == 0
  {
    if live != [] {
      NothingAt(live[..|live| - 1], d);
    }
  }

  // ----- the tracker

  function SaturatingSub(a: nat, b: nat): nat {
    if a >= b then a - b else 0
  }

  function Total(depths: seq<nat>): nat {
    if depths == [] then 0 else Total(depths[..|depths| - 1]) + depths[|depths| - 1]
  }

  /** The slots of the vector add up to the live total. */
  lemma {:induction false} TotalIsSum(live: seq<Live>, depths: seq<nat>)
    requires forall d :: 0 <= d < |depths| ==> depths[d] == SumAt(live, d)
    ensures depths != [] ==> Total(depths) == Sum(Kept(live, |depths| - 1))
    decreases |depths|
  {
    hide Sum, SumAt, Kept;
    if depths != [] {
      var last := |depths| - 1;
      TotalIsSum(live, depths[..last]);
      if last == 0 {
        KeptAtTop(live);
      } else {
        KeptSum(live, last);
      }
    }
  }

  lemma {:induction false} KeptAtTop(live: seq<Live>)
    ensures Sum(Kept(live, 0)) == SumAt(live, 0)
  {
    hide Sum;
    if live == [] {
      SumOfNothing();
    } else {
      var front, l := live[..|live| - 1], live[|live| - 1];
      KeptAtTop(front);
      KeptStep(live, 0);
      SumAppend(Kept(front, 0), l);
    }
  }

  lemma {:induction false} SumOfNothing()
    ensures Sum([]) == 0
  {
  }

  class EvaluationMemory {
    var depths: seq<nat>
    var maxActiveDepth: Option<nat>
    var totalBytes: nat
    const maxBytes: nat
    /** The results the counters stand for. */
    ghost var live: seq<Live>

    ghost predicate Valid()
      reads this
    {
      && totalBytes == Sum(live) <= maxBytes
      && (forall d :: 0 <= d < |depths| ==> depths[d] == SumAt(live, d))
      && (live != [] ==> maxActiveDepth.Some?)
      && (maxActiveDepth.Some? ==> maxActiveDepth.value < |depths|)
      && (forall l :: l in live ==> maxActiveDepth.Some? && l.depth <= maxActiveDepth.value)
    }

    /** The running total is always the sum of the per-depth counters. */
    lemma {:induction false} TotalBytesIsTheSum()
      requires Valid()
      ensures totalBytes == Total(depths)
    {
      hide Sum, SumAt, Kept;
      TotalIsSum(live, depths);
      if depths == [] {
        assert live == [];
        SumOfNothing();
      } else {
        KeptAll(live, |depths| - 1);
      }
    }

    constructor (maxBytes: nat)
      ensures Valid() && live == [] && this.maxBytes == maxBytes
    {
      depths, maxActiveDepth, totalBytes, live := [], None, 0, [];
      this.maxBytes := maxBytes;
    }

    /** Forgets everything deeper than `depth`.  The saturating subtraction never saturates. */
    method TrimDeeperThan(depth: nat)
      requires Valid()
      modifies this
      ensures Valid() && live == Kept(old(live), depth)
    {
      hide Sum, SumAt, Kept;
      if maxActiveDepth.None? {
        assert live == [];
        KeptNothing(depth);
        return;
      }
      var active := maxActiveDepth.value;
      ghost var all := live;
      BeginTrim(all, active, depths, totalBytes);
      while active > depth
        invariant maxActiveDepth == old(maxActiveDepth) && live == all
        invariant maxActiveDepth.Some? && active <= maxActiveDepth.value && |depths| == old(|depths|)
        invariant depth <= active || active == maxActiveDepth.value
        invariant Trimming(all, active, depths, totalBytes)
      {
        TrimStep(all, active, depths, totalBytes);
        var amount := depths[active];
        totalBytes := SaturatingSub(totalBytes, amount);
        depths := depths[active := 0];
        active := active - 1;
      }
      maxActiveDepth := Some(active);
      EndTrim(all, active, depth, old(maxActiveDepth.value));
      KeptLess(all, active);
      live := Kept(all, depth);
    }

    /** Records a result; refuses it when the live total would exceed the limit. */
    method AddResult(depth: nat, value: Value, m: ResultMemory) returns (result: Result<(), EvalError>)
      requires Valid()
      modifies this
      ensures Valid()
      ensures result.Ok? <==> Sum(Added(old(live), depth, value, m)) <= maxBytes
      ensures result.Ok? ==> live == Added(old(live), depth, value, m)
      ensures result.Err? ==> result.error == MemoryLimitExceeded(maxBytes)
    {
      hide SumAt, Kept, Sum, ResultBytes, Trims;
      if Trims(value, m) {
        TrimDeeperThan(depth);
      }
      ghost var before := live;
      if |depths| <= depth {
        NothingBeyond(before, |depths|);
        depths := Grow(depths, depth + 1);
      }
      maxActiveDepth :=
        Some(if maxActiveDepth.None? || maxActiveDepth.value < depth then depth else maxActiveDepth.value);
      var bytes := ResultBytes(value, m);
      SumsAppend(before, Live(depth, bytes));
      if totalBytes + bytes > maxBytes {
        return Err(MemoryLimitExceeded(maxBytes));
      }
      depths := depths[depth := depths[depth] + bytes];
      totalBytes := totalBytes + bytes;
      live := before + [Live(depth, bytes)];
      return Ok(());
    }
  }

  /** Extends the counters with zeroes up to length `n`. */
  function Grow(depths: seq<nat>, n: nat): (r: seq<nat>)
    requires |depths| <= n
    ensures |r| == n
    ensures forall d :: 0 <= d < n ==> r[d] == if d < |depths| then depths[d] else 0
  {
    depths + seq(n - |depths|, _ => 0)
  }

  lemma {:induction false} NothingBeyond(live: seq<Live>, n: nat)
    requires forall l :: l in live ==> l.depth < n
    ensures forall d :: d >= n ==> SumAt(live, d) == 0
  {
    forall d | d >= n
      ensures SumAt(live, d) == 0
    {
      NothingAt(live, d);
    }
  }

  lemma {:induction false} KeptNothing(depth: nat)
    ensures Kept([], depth) == []
  {
  }

  /** The counters, part-way through trimming, stand for the results up to `active`. */
  ghost predicate Trimming(all: seq<Live>, active: nat, depths: seq<nat>, total: nat) {
    && active < |depths|
    && total == Sum(Kept(all, active))
    && forall d :: 0 <= d < |depths| ==> depths[d] == SumAt(Kept(all, active), d)
  }

  lemma {:induction false} BeginTrim(all: seq<Live>, active: nat, depths: seq<nat>, total: nat)
    requires (forall l :: l in all ==> l.depth <= active) && active < |depths| && total == Sum(all)
    requires forall d :: 0 <= d < |depths| ==> depths[d] == SumAt(all, d)
    ensures Trimming(all, active, depths, total)
  {
    KeptAll(all, active);
  }

  lemma {:induction false} TrimStep(all: seq<Live>, active: nat, depths: seq<nat>, total: nat)
    requires Trimming(all, active, depths, total) && active > 0
    ensures total >= depths[active]
    ensures Trimming(all, active - 1, depths[active := 0], total - depths[active])
  {
    hide Sum, SumAt, Kept;
    KeptSum(all, active);
    KeptSumAt(all, active, active);
    var next := depths[active := 0];
    forall d | 0 <= d < |next|
      ensures next[d] == SumAt(Kept(all, active - 1), d)
    {
      KeptSumAt(all, active, d);
      KeptSumAt(all, active - 1, d);
    }
  }

  lemma {:induction false} EndTrim(all: seq<Live>, active: nat, depth: nat, deepest: nat)
    requires forall l :: l in all ==> l.depth <= deepest
    requires active == depth || (active == deepest && active <= depth)
    ensures Kept(all, active) == Kept(all, depth)
    ensures forall l :: l in Kept(all, depth) ==> l.depth <= active
  {
    hide Kept;
    if active == deepest {
      KeptAll(all, active);
      KeptAll(all, depth);
    }
    KeptDepths(all, active);
  }

  // ----- evaluation

  /** The value of an expression, with no regard to memory. */
  function Meaning(env: Env, e: Expr): Result<Value, EvalError>
    decreases e, 0
  {
    match e
    case NullLiteral => Ok(Null)
    case BoolLiteral(b) => Ok(Bool(b))
    case NumberLiteral(n) => Ok(Number(n))
    case StrLiteral(s) => Ok(String(s))
    case NamedValue(name) =>
      if env.root(name).Some? then Ok(env.root(name).value) else Err(UnrecognizedNamedValue(name))
    case NotExpr(inner) =>
      var v := Meaning(env, inner);
      if v.Err? then v else Ok(Bool(IsFalsy(v.value)))
    case Binary(op, lhs, rhs) =>
      var l := Meaning(env, lhs);
      if l.Err? then l
      else if op.And? then (if IsFalsy(l.value) then l else Meaning(env, rhs))
      else if op.Or? then (if IsFalsy(l.value) then Meaning(env, rhs) else l)
      else
        var r := Meaning(env, rhs);
        if r.Err? then r else Ok(Bool(env.compare(op, l.value, r.value)))
    case Index(target, index) =>
      var t := Meaning(env, target);
      if t.Err? then t
      else if IsPrimitive(t.value) then Ok(Null)
      else
        var i := Meaning(env, index);
        if i.Err? then i else Ok(env.access(t.value, i.value).value)
    case Wildcard(target) =>
      var t := Meaning(env, target);
      if t.Err? then t else Ok(env.filter(t.value).value)
    case Call(name, args) => CallMeaning(env, name, args, map[], Indices(|args|))
  }

  /** A call that knows some arguments; `left` are those it has not asked for. */
  function CallMeaning(env: Env, name: string, args: seq<Expr>, known: map<nat, Value>,
                       left: set<nat>): Result<Value, EvalError>
    decreases args, 1, |left|
  {
    match env.builtin(name, |args|, known).step
    case Finish(v) => Ok(v)
    case Fail(message) => Err(CallFailed(message))
    case Ask(i) =>
      if i >= |args| || i !in left then Err(CallFailed(""))
      else
        var v := Meaning(env, args[i]);
        if v.Err? then v else CallMeaning(env, name, args, known[i := v.value], left - {i})
  }

  function Indices(n: nat): set<nat> {
    if n == 0 then {} else Indices(n - 1) + {n - 1}
  }

  predicate IsFromJson(name: string) {
    |name| == 8 && forall k :: 0 <= k < 8 ==> Lower(name[k]) == "fromjson"[k]
  }

  function Lower(c: char): char {
    if 'A' <= c <= 'Z' then (c as int + 32) as char else c
  }

  /** A primitive taken from outside is accounted for together with its wrapper. */
  function Wrapped(v: Value): ResultMemory {
    ResultMemory(WrappedPrimitiveBytes(v), false, IsPrimitive(v))
  }

  /** How the result `v` of a node is accounted for. */
  function Accounting(env: Env, e: Expr, v: Value): ResultMemory {
    match e
    case NamedValue(_) => Wrapped(v)
    case Index(target, index) =>
      var t, i := Meaning(env, target), Meaning(env, index);
      if t.Err? || IsPrimitive(t.value) || i.Err? then PLAIN
      else ResultMemory(env.access(t.value, i.value).bytes, false, env.access(t.value, i.value).hasRaw)
    case Wildcard(target) =>
      var t := Meaning(env, target);
      if t.Err? then PLAIN else ResultMemory(env.filter(t.value).bytes, false, false)
    case Call(name, _) => if IsFromJson(name) then Wrapped(v) else PLAIN
    case _ => PLAIN
  }

  const STAR: Value := String("*")

  /** Evaluating the operands: what is live afterwards, and the largest live total on the way.
      Only operands whose value is asked for are evaluated. */
  function Operands(env: Env, e: Expr, depth: nat, live: seq<Live>): (seq<Live>, nat)
    decreases e, 0
  {
    match e
    case NotExpr(inner) => Footprint(env, inner, depth + 1, live)
    case Binary(op, lhs, rhs) =>
      var (afterLeft, leftPeak) := Footprint(env, lhs, depth + 1, live);
      var l := Meaning(env, lhs);
      if l.Err? || (op.And? && IsFalsy(l.value)) || (op.Or? && !IsFalsy(l.value)) then (afterLeft, leftPeak)
      else
        var (afterRight, rightPeak) := Footprint(env, rhs, depth + 1, afterLeft);
        (afterRight, Max(leftPeak, rightPeak))
    case Index(target, index) =>
      var (afterTarget, targetPeak) := Footprint(env, target, depth + 1, live);
      var t := Meaning(env, target);
      if t.Err? || IsPrimitive(t.value) then (afterTarget, targetPeak)
      else
        var (afterIndex, indexPeak) := Footprint(env, index, depth + 1, afterTarget);
        (afterIndex, Max(targetPeak, indexPeak))
    case Wildcard(target) =>
      var (afterTarget, targetPeak) := Footprint(env, target, depth + 1, live);
      var t := Meaning(env, target);
      if t.Err? || IsPrimitive(t.value) then (afterTarget, targetPeak)
      else
        var all := Added(afterTarget, depth + 1, STAR, PLAIN);
        (all, Max(targetPeak, Sum(all)))
    case Call(name, args) => CallFootprint(env, name, args, map[], Indices(|args|), depth + 1, live, 0)
    case _ => (live, Sum(live))
  }

  /** A built-in function at work: its own counter has reached `count`. */
  function CallFootprint(env: Env, name: string, args: seq<Expr>, known: map<nat, Value>, left: set<nat>,
                         depth: nat, live: seq<Live>, count: nat): (seq<Live>, nat)
    decreases args, 1, |left|
  {
    var move := env.builtin(name, |args|, known);
    var here := Max(Sum(live), count + move.charge);
    match move.step
    case Ask(i) =>
      if i >= |args| || i !in left then (live, here)
      else
        var (afterArg, argPeak) := Footprint(env, args[i], depth, live);
        var v := Meaning(env, args[i]);
        if v.Err? then (afterArg, Max(here, argPeak))
        else
          var (after, peak) :=
            CallFootprint(env, name, args, known[i := v.value], left - {i}, depth, afterArg, count + move.charge);
          (after, Max(Max(here, argPeak), peak))
    case _ => (live, here)
  }

  /** The live results after evaluating `e`, and the largest live total on the way. */
  function Footprint(env: Env, e: Expr, depth: nat, live: seq<Live>): (seq<Live>, nat)
    decreases e, 1
  {
    var (after, peak) := Operands(env, e, depth, live);
    var v := Meaning(env, e);
    if v.Err? then (after, peak)
    else
      var all := Added(after, depth, v.value, Accounting(env, e, v.value));
      (all, Max(peak, Sum(all)))
  }

  function Max(a: nat, b: nat): nat {
    if a >= b then a else b
  }

  /** A node fails as its meaning does, or because the limit is exceeded. */
  ghost predicate Fails(error: EvalError, meaning: Result<Value, EvalError>, maxBytes: nat) {
    meaning == Err(error) || error == MemoryLimitExceeded(maxBytes)
  }

  /** The recursive evaluator under a limit.  It succeeds exactly when the expression has a value
      and the largest live total stays within the limit; the value is then the unlimited one. */
  method EvaluateInner(env: Env, e: Expr, memory: EvaluationMemory, depth: nat)
      returns (result: Result<Value, EvalError>)
    requires memory.Valid()
    modifies memory
    ensures memory.Valid()
    ensures result.Ok? <==> Meaning(env, e).Ok? && Footprint(env, e, depth, old(memory.live)).1 <= memory.maxBytes
    ensures result.Ok? ==> result == Meaning(env, e) && memory.live == Footprint(env, e, depth, old(memory.live)).0
    ensures result.Err? ==> Fails(result.error, Meaning(env, e), memory.maxBytes)
    decreases e, 2
  {
    hide Sum, Added, CallMeaning, CallFootprint;
    var operand := EvalOperands(env, e, memory, depth);
    if operand.Err? {
      return Err(operand.error);
    }
    var (value, m) := operand.value;
    var recorded := memory.AddResult(depth, value, m);
    if recorded.Err? {
      return Err(recorded.error);
    }
    return Ok(value);
  }

  /** Everything about a node but the recording of its result. */
  method EvalOperands(env: Env, e: Expr, memory: EvaluationMemory, depth: nat)
    returns (result: Result<(Value, ResultMemory), EvalError>)
    requires memory.Valid()
    modifies memory
    ensures memory.Valid()
    ensures result.Ok? ==> Meaning(env, e) == Ok(result.value.0) && result.value.1 == Accounting(env, e, result.value.0)
    ensures result.Ok? ==> Operands(env, e, depth, old(memory.live)).1 <= memory.maxBytes
    ensures result.Ok? ==> memory.live == Operands(env, e, depth, old(memory.live)).0
    ensures result.Err? ==> Fails(result.error, Meaning(env, e), memory.maxBytes)
    ensures result.Err? && Meaning(env, e).Ok? ==> Footprint(env, e, depth, old(memory.live)).1 > memory.maxBytes
    decreases e, 1
  {
    hide Sum, Added, CallMeaning, CallFootprint;
    assert Sum(memory.live) <= memory.maxBytes;
    match e {
      case NullLiteral => return Ok((Null, PLAIN));
      case BoolLiteral(b) => return Ok((Bool(b), PLAIN));
      case NumberLiteral(n) => return Ok((Number(n), PLAIN));
      case StrLiteral(s) => return Ok((String(s), PLAIN));
      case NamedValue(name) =>
        if env.root(name).None? {
          return Err(UnrecognizedNamedValue(name));
        }
        return Ok((env.root(name).value, Wrapped(env.root(name).value)));
      case NotExpr(inner) =>
        var v := EvaluateInner(env, inner, memory, depth + 1);
        if v.Err? {
          return Err(v.error);
        }
        return Ok((Bool(IsFalsy(v.value)), PLAIN));
      case Binary(op, lhs, rhs) =>
        var v := EvalBinary(env, e, memory, depth);
        if v.Err? {
          return Err(v.error);
        }
        return Ok((v.value, PLAIN));
      case Index(target, index) =>
        result := EvalIndex(env, e, memory, depth);
      case Wildcard(target) =>
        result := EvalWildcard(env, e, memory, depth);
      case Call(name, args) =>
        var v := EvalCall(env, name, args, map[], Indices(|args|), memory, depth + 1, 0);
        if v.Err? {
          return Err(v.error);
        }
        return Ok((v.value, if IsFromJson(name) then Wrapped(v.value) else PLAIN));
    }
  }

  method EvalBinary(env: Env, e: Expr, memory: EvaluationMemory, parentDepth: nat)
      returns (result: Result<Value, EvalError>)
    requires e.Binary? && memory.Valid()
    modifies memory
    ensures memory.Valid()
    ensures result.Ok? <==> Meaning(env, e).Ok? && Operands(env, e, parentDepth, old(memory.live)).1 <= memory.maxBytes
    ensures result.Ok? ==> result == Meaning(env, e) && memory.live == Operands(env, e, parentDepth, old(memory.live)).0
    ensures result.Err? ==> Fails(result.error, Meaning(env, e), memory.maxBytes)
    decreases e, 0
  {
    hide Sum, Added, CallMeaning, CallFootprint;
    var depth := parentDepth + 1;
    var l := EvaluateInner(env, e.lhs, memory, depth);
    if l.Err? {
      return l;
    }
    if e.op.And? && IsFalsy(l.value) {
      return l;
    }
    if e.op.Or? && !IsFalsy(l.value) {
      return l;
    }
    var r := EvaluateInner(env, e.rhs, memory, depth);
    if r.Err? || e.op.And? || e.op.Or? {
      return r;
    }
    return Ok(Bool(env.compare(e.op, l.value, r.value)));
  }

  /** An index is evaluated only into a collection. */
  method EvalIndex(env: Env, e: Expr, memory: EvaluationMemory, depth: nat)
    returns (result: Result<(Value, ResultMemory), EvalError>)
    requires e.Index? && memory.Valid()
    modifies memory
    ensures memory.Valid()
    ensures result.Ok? ==> Meaning(env, e) == Ok(result.value.0) && result.value.1 == Accounting(env, e, result.value.0)
    ensures result.Ok? ==> Operands(env, e, depth, old(memory.live)).1 <= memory.maxBytes
    ensures result.Ok? ==> memory.live == Operands(env, e, depth, old(memory.live)).0
    ensures result.Err? ==> Fails(result.error, Meaning(env, e), memory.maxBytes)
    ensures result.Err? && Meaning(env, e).Ok? ==> Footprint(env, e, depth, old(memory.live)).1 > memory.maxBytes
    decreases e, 0
  {
    hide Sum, Added, CallMeaning, CallFootprint;
    var t := EvaluateInner(env, e.target, memory, depth + 1);
    if t.Err? {
      return Err(t.error);
    }
    if IsPrimitive(t.value) {
      return Ok((Null, PLAIN));
    }
    var i := EvaluateInner(env, e.index, memory, depth + 1);
    if i.Err? {
      return Err(i.error);
    }
    var access := env.access(t.value, i.value);
    var m := ResultMemory(access.bytes, false, access.hasRaw);
    if access.bytes.Some? && access.bytes.value > memory.maxBytes {
      AddedAtLeast(memory.live, depth, access.value, m);
      return Err(MemoryLimitExceeded(memory.maxBytes));
    }
    return Ok((access.value, m));
  }

  /** A filter on a collection also records the wildcard itself. */
  method EvalWildcard(env: Env, e: Expr, memory: EvaluationMemory, depth: nat)
    returns (result: Result<(Value, ResultMemory), EvalError>)
    requires e.Wildcard? && memory.Valid()
    modifies memory
    ensures memory.Valid()
    ensures result.Ok? ==> Meaning(env, e) == Ok(result.value.0) && result.value.1 == Accounting(env, e, result.value.0)
    ensures result.Ok? ==> Operands(env, e, depth, old(memory.live)).1 <= memory.maxBytes
    ensures result.Ok? ==> memory.live == Operands(env, e, depth, old(memory.live)).0
    ensures result.Err? ==> Fails(result.error, Meaning(env, e), memory.maxBytes)
    ensures result.Err? && Meaning(env, e).Ok? ==> Footprint(env, e, depth, old(memory.live)).1 > memory.maxBytes
    decreases e, 0
  {
    hide Sum, Added, CallMeaning, CallFootprint;
    var t := EvaluateInner(env, e.target, memory, depth + 1);
    if t.Err? {
      return Err(t.error);
    }
    if !IsPrimitive(t.value) {
      var recorded := memory.AddResult(depth + 1, STAR, PLAIN);
      if recorded.Err? {
        return Err(recorded.error);
      }
    }
    var filtered := env.filter(t.value);
    var m := ResultMemory(filtered.bytes, false, false);
    if filtered.bytes.Some? && filtered.bytes.value > memory.maxBytes {
      AddedAtLeast(memory.live, depth, filtered.value, m);
      return Err(MemoryLimitExceeded(memory.maxBytes));
    }
    return Ok((filtered.value, m));
  }

  lemma {:induction false} AddedAtLeast(live: seq<Live>, depth: nat, v: Value, m: ResultMemory)
    requires m.bytes.Some?
    ensures Sum(Added(live, depth, v, m)) >= m.bytes.value
  {
    hide Sum;
    SumAppend(Trimmed(live, depth, Trims(v, m)), Live(depth, ResultBytes(v, m)));
  }

  /** A built-in function that knows some arguments, its own counter at `count`. */
  method EvalCall(env: Env, name: string, args: seq<Expr>, known: map<nat, Value>, left: set<nat>,
                  memory: EvaluationMemory, depth: nat, count: nat)
    returns (result: Result<Value, EvalError>)
    requires memory.Valid() && count <= memory.maxBytes
    modifies memory
    ensures memory.Valid()
    ensures result.Ok? <==>
              && CallMeaning(env, name, args, known, left).Ok?
              && CallFootprint(env, name, args, known, left, depth, old(memory.live), count).1 <= memory.maxBytes
    ensures result.Ok? ==> result == CallMeaning(env, name, args, known, left)
    ensures result.Ok? ==> memory.live == CallFootprint(env, name, args, known, left, depth, old(memory.live), count).0
    ensures result.Err? ==> Fails(result.error, CallMeaning(env, name, args, known, left), memory.maxBytes)
    decreases args, 3, |left|
  {
    hide Sum, Added, Meaning, Footprint;
    assert Sum(memory.live) <= memory.maxBytes;
    var move := env.builtin(name, |args|, known);
    if count + move.charge > memory.maxBytes {
      return Err(MemoryLimitExceeded(memory.maxBytes));
    }
    match move.step {
      case Finish(v) => return Ok(v);
      case Fail(message) => return Err(CallFailed(message));
      case Ask(i) =>
        if i >= |args| || i !in left {
          return Err(CallFailed(""));
        }
        var v := EvaluateInner(env, args[i], memory, depth);
        if v.Err? {
          return v;
        }
        result := EvalCall(env, name, args, known[i := v.value], left - {i}, memory, depth, count + move.charge);
    }
  }

  // ----- nesting

  const MAX_EXPRESSION_DEPTH: nat := 50

  /** The number of nodes on the longest way down. */
  function Height(e: Expr): nat
    decreases e, 0
  {
    match e
    case NotExpr(inner) => 1 + Height(inner)
    case Binary(_, lhs, rhs) => 1 + Max(Height(lhs), Height(rhs))
    case Index(target, index) => 1 + Max(Height(target), Height(index))
    case Wildcard(target) => 1 + Height(target)
    case Call(_, args) => 1 + Tallest(args)
    case _ => 1
  }

  function Tallest(es: seq<Expr>): nat
    decreases es, 1
  {
    if es == [] then 0 else Max(Tallest(es[..|es| - 1]), Height(es[|es| - 1]))
  }

  function Size(e: Expr): nat
    decreases e, 0
  {
    match e
    case NotExpr(inner) => 1 + Size(inner)
    case Binary(_, lhs, rhs) => 1 + Size(lhs) + Size(rhs)
    case Index(target, index) => 1 + Size(target) + Size(index)
    case Wildcard(target) => 1 + Size(target)
    case Call(_, args) => 1 + Sizes(args)
    case _ => 1
  }

  function Sizes(es: seq<Expr>): nat
    decreases es, 1
  {
    if es == [] then 0 else Sizes(es[..|es| - 1]) + Size(es[|es| - 1])
  }

  function Children(e: Expr): (r: seq<Expr>)
  {
    match e
    case NotExpr(inner) => [inner]
    case Binary(_, lhs, rhs) => [lhs, rhs]
    case Index(target, index) => [target, index]
    case Wildcard(target) => [target]
    case Call(_, args) => args
    case _ => []
  }

  lemma {:induction false} ChildrenFacts(e: Expr)
    ensures Height(e) == 1 + Tallest(Children(e)) && Size(e) == 1 + Sizes(Children(e))
  {
    match e
    case NotExpr(inner) => OneMore([], inner);
    case Binary(_, lhs, rhs) => Two(lhs, rhs);
    case Index(target, index) => Two(target, index);
    case Wildcard(target) => OneMore([], target);
    case _ =>
  }

  lemma {:induction false} OneMore(es: seq<Expr>, e: Expr)
    ensures Tallest(es + [e]) == Max(Tallest(es), Height(e)) && Sizes(es + [e]) == Sizes(es) + Size(e)
  {
    assert (es + [e])[..|es|] == es;
  }

  lemma {:induction false} Two(a: Expr, b: Expr)
    ensures Tallest([a, b]) == Max(Height(a), Height(b)) && Sizes([a, b]) == Size(a) + Size(b)
  {
    hide Height, Size, Tallest, Sizes;
    NoNodes();
    OneMore([], a);
    OneMore([a], b);
    assert [] + [a] == [a] && [a] + [b] == [a, b];
  }

  lemma NoNodes()
    ensures Tallest([]) == 0 && Sizes([]) == 0
  {
  }

  /** Subtrees still to be walked, with the depth their roots are at. */
  datatype Pending = Pending(node: Expr, depth: nat)

  function Deepest(stack: seq<Pending>): nat {
    if stack == [] then 0
    else Max(Deepest(stack[..|stack| - 1]), stack[|stack| - 1].depth + Height(stack[|stack| - 1].node) - 1)
  }

  function Work(stack: seq<Pending>): nat {
    if stack == [] then 0 else Work(stack[..|stack| - 1]) + Size(stack[|stack| - 1].node)
  }

  function PushAll(stack: seq<Pending>, nodes: seq<Expr>, depth: nat): seq<Pending> {
    if nodes == [] then stack
    else PushAll(stack, nodes[..|nodes| - 1], depth) + [Pending(nodes[|nodes| - 1], depth)]
  }

  lemma {:induction false} PushedFacts(stack: seq<Pending>, nodes: seq<Expr>, depth: nat)
    requires depth > 0
    ensures Deepest(PushAll(stack, nodes, depth))
         == if nodes == [] then Deepest(stack) else Max(Deepest(stack), depth + Tallest(nodes) - 1)
    ensures Work(PushAll(stack, nodes, depth)) == Work(stack) + Sizes(nodes)
    decreases |nodes|
  {
    hide Height, Size;
    if nodes != [] {
      var last := |nodes| - 1;
      PushedFacts(stack, nodes[..last], depth);
      var before := PushAll(stack, nodes[..last], depth);
      assert (before + [Pending(nodes[last], depth)])[..|before|] == before;
    }
  }

  /** Walking a node instead of its subtree: its children take its place on the stack. */
  lemma {:induction false} VisitNode(stack: seq<Pending>)
    requires stack != [] && 0 < stack[|stack| - 1].depth <= MAX_EXPRESSION_DEPTH
    ensures var front, top := stack[..|stack| - 1], stack[|stack| - 1];
            var next := PushAll(front, Children(top.node), top.depth + 1);
            && (Deepest(next) > MAX_EXPRESSION_DEPTH <==> Deepest(stack) > MAX_EXPRESSION_DEPTH)
            && Work(next) < Work(stack)
  {
    hide Height, Size;
    var top := stack[|stack| - 1];
    ChildrenFacts(top.node);
    PushedFacts(stack[..|stack| - 1], Children(top.node), top.depth + 1);
  }

  lemma {:induction false} PushedDepths(stack: seq<Pending>, nodes: seq<Expr>, depth: nat)
    requires forall i :: 0 <= i < |stack| ==> stack[i].depth > 0
    requires depth > 0
    ensures forall i :: 0 <= i < |PushAll(stack, nodes, depth)| ==> PushAll(stack, nodes, depth)[i].depth > 0
    decreases |nodes|
  {
    if nodes != [] {
      PushedDepths(stack, nodes[..|nodes| - 1], depth);
    }
  }

  lemma {:induction false} TooDeepAlready(stack: seq<Pending>)
    requires stack != []
    ensures Deepest(stack) >= stack[|stack| - 1].depth
  {
  }

  /** The walk with an explicit stack finds out whether the tree is too high. */
  method ExceedsSafeDepth(e: Expr) returns (deep: bool)
    ensures deep <==> Height(e) > MAX_EXPRESSION_DEPTH
  {
    hide Height, Deepest, Work, PushAll, Children;
    var stack := [Pending(e, 1)];
    StartWalk(e);
    while stack != []
      invariant Deepest(stack) > MAX_EXPRESSION_DEPTH <==> Height(e) > MAX_EXPRESSION_DEPTH
      invariant forall i :: 0 <= i < |stack| ==> stack[i].depth > 0
      decreases Work(stack)
    {
      var top := stack[|stack| - 1];
      if top.depth > MAX_EXPRESSION_DEPTH {
        TooDeepAlready(stack);
        return true;
      }
      VisitNode(stack);
      PushedDepths(stack[..|stack| - 1], Children(top.node), top.depth + 1);
      stack := PushAll(stack[..|stack| - 1], Children(top.node), top.depth + 1);
    }
    EndWalk();
    return false;
  }

  lemma {:induction false} StartWalk(e: Expr)
    ensures Deepest([Pending(e, 1)]) == Height(e)
  {
    assert [Pending(e, 1)][..0] == [];
  }

  lemma {:induction false} EndWalk()
    ensures Deepest([]) == 0
  {
  }

  // ----- the entry point

  function EffectiveMax(configured: nat): nat {
    if configured == 0 then DEFAULT_MAX_MEMORY_BYTES else configured
  }

  /** The smallest limit under which `e` evaluates. */
  function Peak(env: Env, e: Expr): nat {
    Footprint(env, e, 0, []).1
  }

  /** Evaluation with options: within the limits it is the meaning of the expression, and the
      limits decide nothing but success. */
  method Evaluate(env: Env, e: Expr, configured: nat) returns (result: Result<Value, EvalError>)
    ensures result.Ok? <==>
              && Height(e) <= MAX_EXPRESSION_DEPTH
              && Meaning(env, e).Ok? && Peak(env, e) <= EffectiveMax(configured)
    ensures result.Ok? ==> result == Meaning(env, e)
    ensures Height(e) > MAX_EXPRESSION_DEPTH ==> result == Err(ExpressionTooDeep)
    ensures Height(e) <= MAX_EXPRESSION_DEPTH && result.Err? ==>
              Fails(result.error, Meaning(env, e), EffectiveMax(configured))
  {
    hide Height, Footprint, Meaning;
    var deep := ExceedsSafeDepth(e);
    if deep {
      return Err(ExpressionTooDeep);
    }
    var memory := new EvaluationMemory(EffectiveMax(configured));
    result := EvaluateInner(env, e, memory, 0);
  }
}
