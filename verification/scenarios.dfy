/**
  The exact result of the walk on the CFG the compiler emits for a single while loop:

      entry -> header -> body -> header (back edge)
                      -> exit

  The labels are any names that the name predicates classify as the compiler's
  do (`while.cond`, `while.body`, `while.end`, and an entry block outside the loop).
 */
module Scenarios {
  import opened ValueStore
  import opened Interpreter
  import opened Literals
  import opened BlockNames
  import opened DifferencePass

  datatype LoopLabels = LoopLabels(entry: Label, header: Label, body: Label, exit: Label)

  /** The labels of a single while loop, classified as the compiler names them. */
  predicate LoopNames(l: LoopLabels)
  {
    && !IsBeginLoop(l.entry) && !IsEndLoop(l.entry)
    && IsBeginLoop(l.header)
    && !IsBeginLoop(l.body) && !IsEndLoop(l.body)
    && IsEndLoop(l.exit)
    && l.entry != l.body
  }

  /** The labels clang gives a `while` loop in `main`. */
  const WhileLoop := LoopLabels("entry", "while.cond", "while.body", "while.end")

  /** The four labels are pairwise distinct, and the header is not an exit. */
  lemma LoopNamesDistinct(l: LoopLabels)
    requires LoopNames(l)
    ensures !IsEndLoop(l.header)
    ensures l.entry != l.header && l.entry != l.exit && l.header != l.body
    ensures l.header != l.exit && l.body != l.exit
  {
    HeaderIsNotExit(l.header);
  }

  /** The single-loop CFG with empty blocks. */
  function LoopCfg(l: LoopLabels): (cfg: Cfg)
    requires LoopNames(l)
    ensures WellFormed(cfg)
    ensures cfg.Keys == {l.entry, l.header, l.body, l.exit}
    ensures cfg[l.header].succs == [l.body, l.exit] && cfg[l.exit].succs == []
  {
    LoopNamesDistinct(l);
    map[
      l.entry := Block([], [l.header]),
      l.header := Block([], [l.body, l.exit]),
      l.body := Block([], [l.header]),
      l.exit := Block([], [])
    ]
  }

  /**
    On the single-loop CFG, started with the entry context: the body is walked
    once and stops at the back edge (no closing report), and the exit is walked
    twice — once by the replay rule and once more by the general rule.
   */
  lemma SingleLoopTrace(l: LoopLabels, fuel: nat)
    requires LoopNames(l) && fuel >= 4
    ensures Walk(LoopCfg(l), fuel, l.entry, map[], EntryContext) ==
      Run(map[], [
        Visit(l.entry, map[]),
        Visit(l.header, map[]),
        Visit(l.body, map[]),
        Visit(l.exit, map[]),
        Close(l.exit, map[]),
        Visit(l.exit, map[]),
        Close(l.exit, map[]),
        Close(l.header, map[]),
        Close(l.entry, map[])
      ], Finished)
  {
    var cfg := LoopCfg(l);
    var e: Vars := map[];
    var r := WalkSuccessors(cfg, fuel - 1, l.entry, 0, e, EntryContext);
    assert Walk(cfg, fuel, l.entry, e, EntryContext) == Run(r.vars, [Visit(l.entry, e)] + r.trace, r.halt) by {
      LoopNamesDistinct(l);
      assert EnterBlock(l.entry, EntryContext) == Some(EntryContext);
      assert AnalyzeBlock(e, cfg[l.entry].instrs) == Some(e);
    }
    EntrySuccessors(l, fuel - 1);
  }

  /** `SingleLoopTrace` for the labels clang emits. */
  lemma WhileLoopTrace(fuel: nat)
    requires fuel >= 4
    ensures LoopNames(WhileLoop)
    ensures Walk(LoopCfg(WhileLoop), fuel, "entry", map[], EntryContext) ==
      Run(map[], [
        Visit("entry", map[]),
        Visit("while.cond", map[]),
        Visit("while.body", map[]),
        Visit("while.end", map[]),
        Close("while.end", map[]),
        Visit("while.end", map[]),
        Close("while.end", map[]),
        Close("while.cond", map[]),
        Close("entry", map[])
      ], Finished)
  {
    NamesOfLoopBlocks();
    SingleLoopTrace(WhileLoop, fuel);
  }

  /** The successors of the entry block: the header's walk, then the entry's closing report. */
  lemma EntrySuccessors(l: LoopLabels, fuel: nat)
    requires LoopNames(l) && fuel >= 3
    ensures WalkSuccessors(LoopCfg(l), fuel, l.entry, 0, map[], EntryContext) ==
      Run(map[], [
        Visit(l.header, map[]), Visit(l.body, map[]),
        Visit(l.exit, map[]), Close(l.exit, map[]),
        Visit(l.exit, map[]), Close(l.exit, map[]),
        Close(l.header, map[]),
        Close(l.entry, map[])
      ], Finished)
  {
    var cfg := LoopCfg(l);
    var e: Vars := map[];
    LoopNamesDistinct(l);
    HeaderWalk(l, fuel);
    var header := Walk(cfg, fuel, l.header, e, EntryContext);
    assert WalkSuccessors(cfg, fuel, l.entry, 1, e, EntryContext) == Run(e, [Close(l.entry, e)], Finished);
    assert WalkSuccessors(cfg, fuel, l.entry, 0, e, EntryContext)
        == Run(e, header.trace + [Close(l.entry, e)], Finished);
  }

  /** The walk of the header, entered from the entry block with the entry context. */
  lemma HeaderWalk(l: LoopLabels, fuel: nat)
    requires LoopNames(l) && fuel >= 3
    ensures Walk(LoopCfg(l), fuel, l.header, map[], EntryContext) ==
      Run(map[], [
        Visit(l.header, map[]), Visit(l.body, map[]),
        Visit(l.exit, map[]), Close(l.exit, map[]),
        Visit(l.exit, map[]), Close(l.exit, map[]),
        Close(l.header, map[])
      ], Finished)
  {
    var cfg := LoopCfg(l);
    var e: Vars := map[];
    LoopNamesDistinct(l);
    var inLoop := Context([l.header], On);
    assert EntryContext.stack + [l.header] == inLoop.stack;
    assert EnterBlock(l.header, EntryContext) == Some(inLoop);
    assert AnalyzeBlock(e, cfg[l.header].instrs) == Some(e);
    HeaderSuccessors(l, fuel - 1);
  }

  /** The successors of the header: the body (stopped at the back edge), then the exit twice. */
  lemma HeaderSuccessors(l: LoopLabels, fuel: nat)
    requires LoopNames(l) && fuel >= 2
    ensures WalkSuccessors(LoopCfg(l), fuel, l.header, 0, map[], Context([l.header], On)) ==
      Run(map[], [
        Visit(l.body, map[]),
        Visit(l.exit, map[]), Close(l.exit, map[]),
        Visit(l.exit, map[]), Close(l.exit, map[]),
        Close(l.header, map[])
      ], Finished)
  {
    var cfg := LoopCfg(l);
    var e: Vars := map[];
    LoopNamesDistinct(l);
    var inLoop := Context([l.header], On);
    BodyWalk(l, fuel);
    ExitSuccessors(l, fuel);
    var tail := WalkSuccessors(cfg, fuel, l.header, 1, e, inLoop);
    assert Top(inLoop.stack) == Some(l.header);
    assert WalkSuccessors(cfg, fuel, l.header, 0, e, inLoop)
        == Run(e, [Visit(l.body, e)] + tail.trace, Finished);
  }

  /** The body is visited and stops at the back edge to the active header, without a closing report. */
  lemma BodyWalk(l: LoopLabels, fuel: nat)
    requires LoopNames(l) && fuel >= 2
    ensures Walk(LoopCfg(l), fuel, l.body, map[], Context([l.header], On)) ==
      Run(map[], [Visit(l.body, map[])], Finished)
  {
    var cfg := LoopCfg(l);
    var e: Vars := map[];
    var inLoop := Context([l.header], On);
    LoopNamesDistinct(l);
    assert EnterBlock(l.body, inLoop) == Some(inLoop);
    assert AnalyzeBlock(e, cfg[l.body].instrs) == Some(e);
    ReentryReturns(cfg, fuel - 1, l.body, 0, e, inLoop);
  }

  /** The header's second successor, the exit, walked twice under the replay rule, then the header's report. */
  lemma ExitSuccessors(l: LoopLabels, fuel: nat)
    requires LoopNames(l) && fuel >= 1
    ensures WalkSuccessors(LoopCfg(l), fuel, l.header, 1, map[], Context([l.header], On)) ==
      Run(map[], [
        Visit(l.exit, map[]), Close(l.exit, map[]),
        Visit(l.exit, map[]), Close(l.exit, map[]),
        Close(l.header, map[])
      ], Finished)
  {
    var cfg := LoopCfg(l);
    var e: Vars := map[];
    LoopNamesDistinct(l);
    var off := Context([l.header], Off);
    LeafBlock(cfg, fuel, l.exit, e, off);
    assert AnalyzeBlock(e, cfg[l.exit].instrs) == Some(e);
    var exitRun := Run(e, [Visit(l.exit, e), Close(l.exit, e)], Finished);
    assert Walk(cfg, fuel, l.exit, e, off) == exitRun;
    assert WalkSuccessors(cfg, fuel, l.header, 2, e, off) == Run(e, [Close(l.header, e)], Finished);
  }

  /** The compiler's labels of a while loop are classified as a single loop's. */
  lemma NamesOfLoopBlocks()
    ensures LoopNames(WhileLoop)
  {
    assert "entry"[0] != LoopBeginBlockName[0];
    assert "entry"[0] != LoopEndBlockName[0];
    assert "while.body"[6] != LoopBeginBlockName[6];
    assert "while.body"[6] != LoopEndBlockName[6];
  }

  /**
    A walk that starts directly at a loop exit has no active loop to pop: the
    source's behaviour is undefined there.
   */
  lemma StartingAtExitIsUndefined(l: LoopLabels, fuel: nat)
    requires LoopNames(l) && fuel >= 1
    ensures Walk(LoopCfg(l), fuel, l.exit, map[], EntryContext).halt == Undefined
  {
  }

  /**
    A load followed by an add with a register operand: the load keeps the value
    under its own address `key`, and the add reads the register operand under the
    operand's address `addr`. When the operand is the load's result (the usual
    `%0 = load ...; %add = add %0, 1`) the two addresses are the same and the add
    sees the loaded value; a register operand at any other, absent address reads 0.
   */
  lemma LoadThenAdd(s: Vars, x: string, key: string, addr: string, dest: string, m: int, c: ConstantInt)
    requires x in s && s[x] == Known(m)
    requires key !in s && addr !in s && dest !in s
    requires dest != key && dest != addr
    ensures var r := AnalyzeBlock(s, [Load(x, key), BinaryOp(Add, dest, [Register(addr), Constant(c)])]);
            && r.Some? && dest in r.value
            && (addr == key ==> r.value[dest] == Known(m + ZExt(c)))
            && (addr != key ==> r.value[dest] == Known(ZExt(c)))
  {
    var add := BinaryOp(Add, dest, [Register(addr), Constant(c)]);
    var s1 := ProcessNewEntry(s, Load(x, key));
    var read := if addr == key then m else 0;
    assert SelectOrZero(s1, addr) == Known(read) && dest !in s1 by {
      assert s1[key] == Known(m);
    }
    AddRegisterToLiteral(s1, addr, dest, c, read);
    var s2 := ProcessNewEntry(s1, add);
    assert AnalyzeBlock(s, [Load(x, key), add]) == Some(s2) by {
      AnalyzeTwo(s, Load(x, key), add);
    }
  }
}
