/**
  The instruction interpreter of a ValueTracker: each supported instruction kind
  (alloca, store, load, binary operator) is a deterministic update of the value
  store; every other instruction leaves it unchanged.

  Operands are classified the way the source distinguishes them: an operand with a name,
  an integer literal, or an unnamed non-literal value (a register), whose store key
  is the text of the operand's address. A load keeps its snapshot under the text
  of its own address, so an arithmetic operand that is an unnamed load's result
  reads the load's key. Addresses are opaque strings here.
 */
module Interpreter {
  import opened ValueStore
  import opened Literals

  datatype Operand =
    | Named(name: string)       // a value with a (non-empty) name
    | Constant(c: ConstantInt)  // an integer literal
    | Register(addr: string)    // an unnamed value, keyed by the text of its address

  datatype Opcode = Add | Sub | Mul | SRem | Unsupported(code: nat)

  datatype Instr =
    | Alloca(name: string)                                  // "" when the alloca has no name
    | Store(src: Operand, dest: string)
    | Load(source: string, key: string)                     // source: "" when unnamed; key: the load's address
    | BinaryOp(op: Opcode, dest: string, operands: seq<Operand>)
    | Other(kind: string)                                   // branches, compares, calls, returns, ...

  // ---------------------------------------------------------------------------
  // Combinators of the arithmetic fold

  function AddCallback(acc: Val, cur: Val): (r: Val)
    ensures r.Known? <==> acc.Known? && cur.Known?
    ensures r.Known? ==> r.n == acc.n + cur.n
  {
    if acc.Unknown? || cur.Unknown? then Unknown else Known(acc.n + cur.n)
  }

  function SubCallback(acc: Val, cur: Val): (r: Val)
    ensures r.Known? <==> acc.Known? && cur.Known?
    ensures r.Known? ==> r.n == acc.n - cur.n
  {
    if acc.Unknown? || cur.Unknown? then Unknown else Known(acc.n - cur.n)
  }

  function MulCallback(acc: Val, cur: Val): (r: Val)
    ensures r.Known? <==> acc.Known? && cur.Known?
    ensures r.Known? ==> r.n == acc.n * cur.n
  {
    if acc.Unknown? || cur.Unknown? then Unknown else Known(acc.n * cur.n)
  }

  /** The remainder combinator of the source: the current operand when known, unknown otherwise. */
  function SRemCallback(acc: Val, cur: Val): (r: Val)
    ensures r == cur
  {
    if cur.Unknown? then Unknown else cur
  }

  /** The srem combinator ignores the accumulator entirely: its result is the current operand. */
  lemma SRemIgnoresAccumulator(acc: Val, cur: Val)
    ensures SRemCallback(acc, cur) == cur
    ensures forall acc' :: SRemCallback(acc', cur) == SRemCallback(acc, cur)
  {
  }

  /** The combinator `processCalculation` binds for a supported opcode. */
  function Combine(op: Opcode, acc: Val, cur: Val): (r: Val)
    requires !op.Unsupported?
    ensures op != SRem ==> (r.Unknown? <==> acc.Unknown? || cur.Unknown?)
    ensures op == Add && r.Known? ==> r.n == acc.n + cur.n
    ensures op == Sub && r.Known? ==> r.n == acc.n - cur.n
    ensures op == Mul && r.Known? ==> r.n == acc.n * cur.n
    ensures op == SRem ==> r == cur
  {
    match op
    case Add => AddCallback(acc, cur)
    case Sub => SubCallback(acc, cur)
    case Mul => MulCallback(acc, cur)
    case SRem => SRemCallback(acc, cur)
  }

  // ---------------------------------------------------------------------------
  // Operand reads

  /** The store keys an operand read goes through (literals read no key). */
  function OperandKeys(o: Operand): set<string>
  {
    match o
    case Named(n) => {n}
    case Constant(_) => {}
    case Register(a) => {a}
  }

  function OperandsKeys(ops: seq<Operand>): (ks: set<string>)
    ensures forall j :: 0 <= j < |ops| ==> OperandKeys(ops[j]) <= ks
    ensures forall k :: k in ks ==> exists j :: 0 <= j < |ops| && k in OperandKeys(ops[j])
  {
    if ops == [] then {} else OperandKeys(ops[0]) + OperandsKeys(ops[1..])
  }

  /**
    One operand read of `calculateArithmetic`: named and register operands go
    through `operator[]`, literals are zero-extended.
   */
  function ReadOperand(s: Vars, o: Operand): (r: (Vars, Val))
    ensures r.1 == OperandValue(s, o)
    ensures ExtendsWithZeros(s, r.0)
    ensures r.0.Keys == s.Keys + OperandKeys(o)
  {
    match o
    case Named(n) => Subscript(s, n)
    case Constant(c) => (s, Known(ZExt(c)))
    case Register(a) => Subscript(s, a)
  }

  /**
    Reference reading of an operand against a fixed map, with no side effect:
    the stored value, 0 for an absent key, the zero-extended literal.
   */
  function OperandValue(s: Vars, o: Operand): Val
  {
    match o
    case Named(n) => if n in s then s[n] else Known(0)
    case Constant(c) => Known(ZExt(c))
    case Register(a) => if a in s then s[a] else Known(0)
  }

  /** A map that extends `s` only with keys holding 0, as `operator[]` reads leave it. */
  ghost predicate ExtendsWithZeros(s: Vars, s': Vars)
  {
    && s.Keys <= s'.Keys
    && (forall k :: k in s ==> s'[k] == s[k])
    && (forall k :: k in s' && k !in s ==> s'[k] == Known(0))
  }

  /** Reads earlier in the fold do not change the value a later operand reads. */
  lemma OperandValueStable(s: Vars, s': Vars, o: Operand)
    requires ExtendsWithZeros(s, s')
    ensures OperandValue(s', o) == OperandValue(s, o)
  {
  }

  // ---------------------------------------------------------------------------
  // The arithmetic fold

  /** Reference left fold of a combinator over already-resolved values. */
  function FoldVals(op: Opcode, acc: Val, vals: seq<Val>): Val
    requires !op.Unsupported? || vals == []
    decreases |vals|
  {
    if vals == [] then acc else FoldVals(op, Combine(op, acc, vals[0]), vals[1..])
  }

  /** The operands' reference values in the map the instruction starts from. */
  function OperandValues(s: Vars, ops: seq<Operand>): (vs: seq<Val>)
    ensures |vs| == |ops|
    ensures forall j :: 0 <= j < |ops| ==> vs[j] == OperandValue(s, ops[j])
  {
    seq(|ops|, j requires 0 <= j < |ops| => OperandValue(s, ops[j]))
  }

  /**
    The loop of `calculateArithmetic` after its first iteration: read the next
    operand through the (growing) map and combine it with the accumulator.
   */
  function FoldOperands(s: Vars, op: Opcode, acc: Val, ops: seq<Operand>): (r: (Vars, Val))
    requires !op.Unsupported? || ops == []
    ensures ExtendsWithZeros(s, r.0)
    ensures r.0.Keys == s.Keys + OperandsKeys(ops)
    ensures r.1 == FoldVals(op, acc, OperandValues(s, ops))
    decreases |ops|
  {
    if ops == [] then (s, acc)
    else
      var (s1, cur) := ReadOperand(s, ops[0]);
      var r := FoldOperands(s1, op, Combine(op, acc, cur), ops[1..]);
      FoldOperandsTail(s, s1, r.0, ops);
      OperandValuesStable(s, s1, ops[1..]);
      assert OperandValues(s, ops)[1..] == OperandValues(s, ops[1..]);
      r
  }

  lemma FoldOperandsTail(s: Vars, s1: Vars, s2: Vars, ops: seq<Operand>)
    requires ops != []
    requires ExtendsWithZeros(s, s1) && ExtendsWithZeros(s1, s2)
    requires s1.Keys == s.Keys + OperandKeys(ops[0])
    requires s2.Keys == s1.Keys + OperandsKeys(ops[1..])
    ensures ExtendsWithZeros(s, s2)
    ensures s2.Keys == s.Keys + OperandsKeys(ops)
  {
  }

  lemma OperandValuesStable(s: Vars, s': Vars, ops: seq<Operand>)
    requires ExtendsWithZeros(s, s')
    ensures OperandValues(s', ops) == OperandValues(s, ops)
  {
    forall j | 0 <= j < |ops|
      ensures OperandValues(s', ops)[j] == OperandValues(s, ops)[j]
    {
      OperandValueStable(s, s', ops[j]);
    }
  }

  /**
    The operand shapes for which `calculateArithmetic` completes: at least one
    operand (the accumulator is seeded from the first; with none it is read
    uninitialised), and a bound combinator whenever a second operand makes the
    loop call it (calling the empty `std::function` throws).
   */
  predicate ArithmeticDefined(op: Opcode, ops: seq<Operand>)
  {
    |ops| >= 1 && (!op.Unsupported? || |ops| == 1)
  }

  /** The value a binary operator computes: the reference fold over its operands' values. */
  function ArithmeticValue(s: Vars, op: Opcode, ops: seq<Operand>): Val
    requires ArithmeticDefined(op, ops)
  {
    FoldVals(op, OperandValue(s, ops[0]), OperandValues(s, ops[1..]))
  }

  /**
    `calculateArithmetic`: the first operand seeds the accumulator, each later
    operand is folded in left to right, and the result is inserted under the
    destination name (kept if the name is already present).
   */
  function CalculateArithmetic(s: Vars, op: Opcode, dest: string, ops: seq<Operand>): (r: Vars)
    requires ArithmeticDefined(op, ops)
    ensures r.Keys == s.Keys + OperandsKeys(ops) + {dest}
    ensures forall k :: k in s ==> r[k] == s[k]
    ensures forall k :: k in r && k !in s && k != dest ==> r[k] == Known(0)
    ensures dest !in s && dest !in OperandsKeys(ops) ==> r[dest] == ArithmeticValue(s, op, ops)
    ensures dest !in s && dest in OperandsKeys(ops) ==> r[dest] == Known(0)
  {
    var (s1, first) := ReadOperand(s, ops[0]);
    var (s2, acc) := FoldOperands(s1, op, first, ops[1..]);
    OperandValuesStable(s, s1, ops[1..]);
    FoldOperandsTail(s, s1, s2, ops);
    Insert(s2, dest, acc)
  }

  // ---------------------------------------------------------------------------
  // The four instruction handlers

  /** `allocateNewVariable`: a named alloca adds `name ↦ unknown` unless the name is present. */
  function AllocateNewVariable(s: Vars, name: string): (r: Vars)
    ensures name == "" ==> r == s
    ensures name != "" ==> r.Keys == s.Keys + {name}
    ensures forall k :: k in s ==> r[k] == s[k]
    ensures name != "" && name !in s ==> r[name] == Unknown
  {
    if name == "" then s else Insert(s, name, Unknown)
  }

  /**
    What `storeValueIntoVariable` can execute: a named source must already be in
    the map (it is dereferenced through `find`), and an unnamed source must be a
    literal (it is dereferenced through a cast to ConstantInt).
   */
  predicate StoreDefined(s: Vars, src: Operand)
  {
    match src
    case Named(n) => n in s
    case Constant(_) => true
    case Register(_) => false
  }

  /** `storeValueIntoVariable`: the destination takes the source's value or the sign-extended literal. */
  function StoreValueIntoVariable(s: Vars, src: Operand, dest: string): (r: Vars)
    requires StoreDefined(s, src)
    ensures r.Keys == s.Keys + {dest}
    ensures src.Named? ==> r[dest] == s[src.name]
    ensures src.Constant? ==> r[dest] == Known(SExt(src.c))
    ensures forall k :: k in s && k != dest ==> r[k] == s[k]
  {
    var v := if src.Named? then s[src.name] else Known(SExt(src.c));
    EditVariable(s, dest, v)
  }

  /**
    `loadVariableIntoRegister`: reads the source through `operator[]` (absent reads
    as 0 and is inserted) and inserts the value under the load's own key, which is
    kept if already present.
   */
  function LoadVariableIntoRegister(s: Vars, source: string, key: string): (r: Vars)
    ensures r.Keys == s.Keys + {source, key}
    ensures forall k :: k in s ==> r[k] == s[k]
    ensures source !in s ==> r[source] == Known(0)
    ensures key !in s ==> r[key] == SelectOrZero(s, source)
  {
    var (s1, v) := Subscript(s, source);
    Insert(s1, key, v)
  }

  /** The value an `operator[]` read of `name` yields. */
  function SelectOrZero(s: Vars, name: string): Val
  {
    if name in s then s[name] else Known(0)
  }

  // ---------------------------------------------------------------------------
  // Dispatch

  /** The instructions `processNewEntry` can execute on `s` without undefined behaviour. */
  predicate Defined(s: Vars, i: Instr)
  {
    match i
    case Store(src, _) => StoreDefined(s, src)
    case BinaryOp(op, _, ops) => ArithmeticDefined(op, ops)
    case _ => true
  }

  /** The keys an instruction may add to the map. */
  function Touched(i: Instr): set<string>
  {
    match i
    case Alloca(n) => if n == "" then {} else {n}
    case Store(_, d) => {d}
    case Load(src, key) => {src, key}
    case BinaryOp(_, d, ops) => {d} + OperandsKeys(ops)
    case Other(_) => {}
  }

  /**
    `processNewEntry`: dispatch on the instruction kind. Keys are only ever added,
    only keys the instruction names are added, and only a store replaces the value
    of a key that is already present. Per kind: a named alloca of a fresh name
    holds unknown; a store writes the source's value or the sign-extended literal;
    a load of a fresh key holds the `operator[]` read of its source; a binary
    operator with a fresh destination holds the fold of its operands.
   */
  function ProcessNewEntry(s: Vars, i: Instr): (r: Vars)
    requires Defined(s, i)
    ensures s.Keys <= r.Keys <= s.Keys + Touched(i)
    ensures forall k :: k in s && !(i.Store? && k == i.dest) ==> r[k] == s[k]
    ensures i.Other? ==> r == s
    ensures i.Alloca? && i.name == "" ==> r == s
    ensures i.Alloca? && i.name != "" ==> i.name in r && (i.name !in s ==> r[i.name] == Unknown)
    ensures i.Store? ==> i.dest in r
    ensures i.Store? ==> r[i.dest] == (if i.src.Named? then s[i.src.name] else Known(SExt(i.src.c)))
    ensures i.Load? ==> i.key in r && (i.key !in s ==> r[i.key] == SelectOrZero(s, i.source))
    ensures i.BinaryOp? ==> i.dest in r
    ensures i.BinaryOp? && i.dest !in s && i.dest !in OperandsKeys(i.operands) ==>
              r[i.dest] == ArithmeticValue(s, i.op, i.operands)
  {
    match i
    case Alloca(n) => AllocateNewVariable(s, n)
    case Store(src, d) => StoreValueIntoVariable(s, src, d)
    case Load(src, key) => LoadVariableIntoRegister(s, src, key)
    case BinaryOp(op, d, ops) => CalculateArithmetic(s, op, d, ops)
    case Other(_) => s
  }

  /** `analyzeDifference` minus its reports: the block's instructions in order; None on undefined behaviour. */
  function AnalyzeBlock(s: Vars, instrs: seq<Instr>): (r: Option<Vars>)
    ensures r.Some? ==> s.Keys <= r.value.Keys
    decreases |instrs|
  {
    if instrs == [] then Some(s)
    else if !Defined(s, instrs[0]) then None
    else AnalyzeBlock(ProcessNewEntry(s, instrs[0]), instrs[1..])
  }

  // ---------------------------------------------------------------------------
  // Properties

  /** Running two instruction sequences back to back is running their concatenation. */
  lemma {:induction false} AnalyzeBlockAppend(s: Vars, a: seq<Instr>, b: seq<Instr>)
    ensures AnalyzeBlock(s, a + b) ==
      (match AnalyzeBlock(s, a) case None => None case Some(s') => AnalyzeBlock(s', b))
    decreases |a|
  {
    if a == [] {
      assert a + b == b;
    } else {
      assert (a + b)[0] == a[0];
      assert (a + b)[1..] == a[1..] + b;
      if Defined(s, a[0]) {
        AnalyzeBlockAppend(ProcessNewEntry(s, a[0]), a[1..], b);
      }
    }
  }

  /**
    Interpreting one more instruction at the end of a block: the block so far,
    then that instruction on the store it leaves (None when it is undefined there).
   */
  lemma AnalyzeBlockSnoc(s: Vars, instrs: seq<Instr>, i: Instr)
    ensures AnalyzeBlock(s, instrs + [i]) ==
      (match AnalyzeBlock(s, instrs)
       case None => None
       case Some(s') => if Defined(s', i) then Some(ProcessNewEntry(s', i)) else None)
  {
    AnalyzeBlockAppend(s, instrs, [i]);
    if AnalyzeBlock(s, instrs).Some? {
      var s' := AnalyzeBlock(s, instrs).value;
      assert [i][1..] == [];
    }
  }

  /** A two-instruction block runs its instructions one after the other. */
  lemma AnalyzeTwo(s: Vars, a: Instr, b: Instr)
    requires Defined(s, a) && Defined(ProcessNewEntry(s, a), b)
    ensures AnalyzeBlock(s, [a, b]) == Some(ProcessNewEntry(ProcessNewEntry(s, a), b))
  {
    var s1 := ProcessNewEntry(s, a);
    var s2 := ProcessNewEntry(s1, b);
    assert [b][1..] == [];
    assert AnalyzeBlock(s1, [b]) == AnalyzeBlock(s2, []);
    assert [a, b][1..] == [b];
  }

  /** Allocating twice is allocating once: re-allocation never disturbs a value. */
  lemma AllocateIdempotent(s: Vars, name: string)
    ensures AllocateNewVariable(AllocateNewVariable(s, name), name) == AllocateNewVariable(s, name)
  {
  }

  /** An alloca of a variable that already holds a known value leaves that value in place. */
  lemma ReallocationKeepsKnownValue(s: Vars, name: string, n: int)
    requires name in s && s[name] == Known(n)
    ensures ProcessNewEntry(s, Alloca(name))[name] == Known(n)
  {
  }

  /**
    Snapshot independence: after a load into a fresh key, writing the source
    again does not change the loaded copy.
   */
  lemma LoadIsSnapshot(s: Vars, source: string, key: string, v: Val)
    requires key !in s && key != source
    ensures var s1 := ProcessNewEntry(s, Load(source, key));
            var s2 := EditVariable(s1, source, v);
            SelectVariable(s2, key) == SelectOrZero(s, source)
  {
  }

  /** A load into a key that already exists keeps the key's old value (`insert` semantics). */
  lemma LoadKeepsExistingRegister(s: Vars, source: string, key: string)
    requires key in s
    ensures ProcessNewEntry(s, Load(source, key))[key] == s[key]
  {
  }

  /** A load of an absent source reads 0 and leaves the source in the map with 0. */
  lemma LoadOfAbsentSourceInsertsZero(s: Vars, source: string, key: string)
    requires source !in s && key !in s
    ensures var r := ProcessNewEntry(s, Load(source, key));
            r[source] == Known(0) && r[key] == Known(0)
  {
  }

  /** For add, sub and mul the fold is unknown exactly when the seed or some folded value is unknown. */
  lemma {:induction false} FoldUnknownIff(op: Opcode, acc: Val, vals: seq<Val>)
    requires op == Add || op == Sub || op == Mul
    ensures FoldVals(op, acc, vals).Unknown? <==> acc.Unknown? || Unknown in vals
    decreases |vals|
  {
    if vals != [] {
      FoldUnknownIff(op, Combine(op, acc, vals[0]), vals[1..]);
      assert vals == [vals[0]] + vals[1..];
    }
  }

  /** The srem fold yields the last folded value (or the seed when there is none). */
  lemma {:induction false} FoldSRemIsLast(acc: Val, vals: seq<Val>)
    ensures FoldVals(SRem, acc, vals) == if vals == [] then acc else vals[|vals| - 1]
    decreases |vals|
  {
    if vals != [] {
      FoldSRemIsLast(Combine(SRem, acc, vals[0]), vals[1..]);
    }
  }

  /** An add over known values is their sum, folded left to right from the seed. */
  lemma {:induction false} FoldAddKnown(acc: int, vals: seq<Val>)
    requires forall j :: 0 <= j < |vals| ==> vals[j].Known?
    ensures FoldVals(Add, Known(acc), vals) == Known(acc + SumKnown(vals))
    decreases |vals|
  {
    if vals != [] {
      FoldAddKnown(acc + vals[0].n, vals[1..]);
    }
  }

  function SumKnown(vals: seq<Val>): int
    requires forall j :: 0 <= j < |vals| ==> vals[j].Known?
  {
    if vals == [] then 0 else vals[0].n + SumKnown(vals[1..])
  }

  /**
    Unknown propagation through a binary operator: for add, sub and mul the
    destination (when fresh) becomes unknown exactly when some operand reads unknown.
   */
  lemma BinaryOpUnknownIff(s: Vars, op: Opcode, dest: string, ops: seq<Operand>)
    requires op == Add || op == Sub || op == Mul
    requires |ops| >= 1
    requires dest !in s && dest !in OperandsKeys(ops)
    ensures ProcessNewEntry(s, BinaryOp(op, dest, ops))[dest].Unknown? <==>
            Unknown in OperandValues(s, ops)
  {
    BinaryOpValue(s, op, dest, ops);
    ArithmeticUnknownIff(s, op, ops);
  }

  lemma ArithmeticUnknownIff(s: Vars, op: Opcode, ops: seq<Operand>)
    requires op == Add || op == Sub || op == Mul
    requires |ops| >= 1
    ensures ArithmeticValue(s, op, ops).Unknown? <==> Unknown in OperandValues(s, ops)
  {
    var first := OperandValue(s, ops[0]);
    var vals := OperandValues(s, ops[1..]);
    FoldUnknownIff(op, first, vals);
    assert OperandValues(s, ops)[1..] == vals;
    assert OperandValues(s, ops) == [first] + vals;
  }

  /** A fresh destination of a binary operator holds the reference fold of its operands. */
  lemma BinaryOpValue(s: Vars, op: Opcode, dest: string, ops: seq<Operand>)
    requires ArithmeticDefined(op, ops)
    requires dest !in s && dest !in OperandsKeys(ops)
    ensures ProcessNewEntry(s, BinaryOp(op, dest, ops))[dest] == ArithmeticValue(s, op, ops)
  {
    assert ProcessNewEntry(s, BinaryOp(op, dest, ops)) == CalculateArithmetic(s, op, dest, ops);
  }

  /**
    The remainder quirk: `srem d, x, y` stores the value read for `y`, whatever
    `x` reads as.
   */
  lemma SRemTakesLastOperand(s: Vars, dest: string, ops: seq<Operand>)
    requires |ops| >= 1
    requires dest !in s && dest !in OperandsKeys(ops)
    ensures ProcessNewEntry(s, BinaryOp(SRem, dest, ops))[dest] == OperandValue(s, ops[|ops| - 1])
  {
    BinaryOpValue(s, SRem, dest, ops);
    ArithmeticSRemIsLast(s, ops);
  }

  lemma ArithmeticSRemIsLast(s: Vars, ops: seq<Operand>)
    requires |ops| >= 1
    ensures ArithmeticValue(s, SRem, ops) == OperandValue(s, ops[|ops| - 1])
  {
    var vals := OperandValues(s, ops[1..]);
    FoldSRemIsLast(OperandValue(s, ops[0]), vals);
    if |ops| > 1 {
      assert vals[|vals| - 1] == OperandValue(s, ops[|ops| - 1]);
    }
  }

  /** `add dest, reg, c` into a fresh destination: the register's `operator[]` read plus the zero-extended literal. */
  lemma AddRegisterToLiteral(s: Vars, addr: string, dest: string, c: ConstantInt, n: int)
    requires dest !in s && dest != addr
    requires SelectOrZero(s, addr) == Known(n)
    ensures dest in ProcessNewEntry(s, BinaryOp(Add, dest, [Register(addr), Constant(c)]))
    ensures ProcessNewEntry(s, BinaryOp(Add, dest, [Register(addr), Constant(c)]))[dest] == Known(n + ZExt(c))
  {
    var ops := [Register(addr), Constant(c)];
    assert dest !in OperandsKeys(ops) by {
      assert OperandsKeys(ops) == {addr};
    }
    assert ArithmeticValue(s, Add, ops) == Known(n + ZExt(c)) by {
      assert OperandValue(s, ops[0]) == Known(n);
      assert OperandValues(s, ops[1..]) == [Known(ZExt(c))];
      FoldAddOne(n, ZExt(c));
    }
    BinaryOpValue(s, Add, dest, ops);
  }

  /** Folding one known value into a known accumulator with add is their sum. */
  lemma FoldAddOne(a: int, b: int)
    ensures FoldVals(Add, Known(a), [Known(b)]) == Known(a + b)
  {
    assert [Known(b)][1..] == [];
  }

  /**
    The sign/zero-extension asymmetry: storing a negative literal stores its value,
    while the same literal as an add operand contributes value + 2^width.
   */
  lemma NegativeLiteralStoredSignedAddedUnsigned(s: Vars, x: string, dest: string, m: int, c: ConstantInt)
    requires x in s && s[x] == Known(m)
    requires dest !in s && dest != x
    requires c.bits >= Pow2(c.width - 1)
    ensures ProcessNewEntry(s, Store(Constant(c), dest))[dest] == Known(SExt(c))
    ensures ProcessNewEntry(s, BinaryOp(Add, dest, [Named(x), Constant(c)]))[dest]
            == Known(m + SExt(c) + Pow2(c.width))
  {
    assert OperandsKeys([Named(x), Constant(c)]) == {x};
    FoldAddKnown(m, OperandValues(s, [Constant(c)]));
  }
}
