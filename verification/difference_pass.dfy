/**
  The CFG traversal controller (`generateCFG`) and the entry selection of the
  driver. The walk is depth-first over a labelled CFG; each call carries its own
  copy of the loop stack and of the backedge switch (both passed by value in the
  source), while the value store is threaded through the whole walk.

  The walk is bounded by `fuel`, the maximum depth of nested block visits. Its
  observable output is a trace: `Visit` when a block's label is printed (with the
  store as it is on entry) and `Close` when the block's closing separation report
  is printed (with the store at that point).
 */
module DifferencePass {
  import opened ValueStore
  import opened Interpreter
  import opened BlockNames

  type Label = string

  /** A basic block: its instructions and its terminator's successors, in order. */
  datatype Block = Block(instrs: seq<Instr>, succs: seq<Label>)

  type Cfg = map<Label, Block>

  /** Every successor named by a block is a block of the same CFG. */
  predicate WellFormed(cfg: Cfg)
  {
    forall l, j :: l in cfg && 0 <= j < |cfg[l].succs| ==> cfg[l].succs[j] in cfg
  }

  /** `AnalyzeLoopBackedgeSwtch`: ON lets a loop exit be replayed once, OFF stops at an exit. */
  datatype Switch = On | Off

  /** The by-value parameters of `generateCFG`: the loop stack (top last) and the switch. */
  datatype Context = Context(stack: seq<Label>, switch: Switch)

  datatype Event = Visit(blk: Label, vars: Vars) | Close(blk: Label, vars: Vars)

  /**
    How a walk ended: normally, where the source has undefined behaviour or throws
    (an empty `std::function` for an unsupported opcode), or out of fuel.
   */
  datatype Halt = Finished | Undefined | OutOfFuel

  datatype Run = Run(vars: Vars, trace: seq<Event>, halt: Halt)

  /** The loop stack only ever holds loop headers. */
  predicate HeaderStack(stack: seq<Label>)
  {
    forall j :: 0 <= j < |stack| ==> IsBeginLoop(stack[j])
  }

  function Top(stack: seq<Label>): (r: Option<Label>)
    ensures r.None? <==> stack == []
  {
    if stack == [] then None else Some(stack[|stack| - 1])
  }

  /**
    The context updates on entry to a block: a header is pushed; an exit pops the
    top and switches back ON. Popping an empty stack is undefined (None).
   */
  function EnterBlock(blk: Label, ctx: Context): (r: Option<Context>)
    ensures r.None? <==> IsEndLoop(blk) && ctx.stack == []
    ensures r.Some? && IsBeginLoop(blk) ==> r.value == Context(ctx.stack + [blk], ctx.switch)
    ensures r.Some? && IsEndLoop(blk) ==> r.value == Context(ctx.stack[..|ctx.stack| - 1], On)
    ensures !IsBeginLoop(blk) && !IsEndLoop(blk) ==> r == Some(ctx)
  {
    HeaderIsNotExit(blk);
    var pushed := if IsBeginLoop(blk) then ctx.stack + [blk] else ctx.stack;
    if !IsEndLoop(blk) then Some(Context(pushed, ctx.switch))
    else if pushed == [] then None
    else Some(Context(pushed[..|pushed| - 1], On))
  }

  /** Entering any block keeps a stack of loop headers a stack of loop headers. */
  lemma EnterKeepsHeaderStack(blk: Label, ctx: Context)
    requires HeaderStack(ctx.stack) && EnterBlock(blk, ctx).Some?
    ensures HeaderStack(EnterBlock(blk, ctx).value.stack)
  {
  }

  /**
    `generateCFG` on one block: print the label, update the context, interpret
    every instruction of the block, then walk the successors.
   */
  function Walk(cfg: Cfg, fuel: nat, blk: Label, vars: Vars, ctx: Context): (r: Run)
    requires WellFormed(cfg) && blk in cfg
    ensures fuel == 0 ==> r == Run(vars, [], OutOfFuel)
    ensures fuel > 0 ==> |r.trace| >= 1 && r.trace[0] == Visit(blk, vars)
    ensures forall k :: 0 <= k < |r.trace| ==> r.trace[k].blk in cfg
    decreases fuel, 1, 0
  {
    if fuel == 0 then Run(vars, [], OutOfFuel)
    else WalkEntered(cfg, fuel - 1, blk, vars, EnterBlock(blk, ctx), AnalyzeBlock(vars, cfg[blk].instrs))
  }

  /**
    The rest of a block's walk once the context update (`entered`) and the
    interpretation of its instructions (`analysed`) are known; `None` in either
    is the source's undefined behaviour.
   */
  function WalkEntered(cfg: Cfg, fuel: nat, blk: Label, vars: Vars,
                       entered: Option<Context>, analysed: Option<Vars>): (r: Run)
    requires WellFormed(cfg) && blk in cfg
    ensures |r.trace| >= 1 && r.trace[0] == Visit(blk, vars)
    ensures forall k :: 0 <= k < |r.trace| ==> r.trace[k].blk in cfg
    decreases fuel, 3, 0
  {
    if entered.None? || analysed.None? then Run(vars, [Visit(blk, vars)], Undefined)
    else
      var r := WalkSuccessors(cfg, fuel, blk, 0, analysed.value, entered.value);
      Run(r.vars, [Visit(blk, vars)] + r.trace, r.halt)
  }

  /**
    The successor loop of `generateCFG`, from successor `i` on. For each successor:
    an exit while OFF returns at once; an exit while ON with a non-empty stack turns
    the switch OFF for the rest of the loop and walks the exit; a successor equal to
    the stack's top then returns at once; otherwise the successor is walked. After
    the last successor the block's closing report is emitted.
   */
  function WalkSuccessors(cfg: Cfg, fuel: nat, blk: Label, i: nat, vars: Vars, ctx: Context): (r: Run)
    requires WellFormed(cfg) && blk in cfg && i <= |cfg[blk].succs|
    ensures forall k :: 0 <= k < |r.trace| ==> r.trace[k].blk in cfg
    decreases fuel, 2, |cfg[blk].succs| - i
  {
    var succs := cfg[blk].succs;
    if i == |succs| then Run(vars, [Close(blk, vars)], Finished)
    else
      var next := succs[i];
      if IsEndLoop(next) && ctx.switch == Off then Run(vars, [], Finished)
      else
        var replay := IsEndLoop(next) && ctx.switch == On && ctx.stack != [];
        var ctx1 := if replay then ctx.(switch := Off) else ctx;
        var r1 := if replay then Walk(cfg, fuel, next, vars, ctx1) else Run(vars, [], Finished);
        if r1.halt != Finished then r1
        else if IsSameBlock(Top(ctx.stack), Some(next)) then r1
        else
          var r2 := Walk(cfg, fuel, next, r1.vars, ctx1);
          if r2.halt != Finished then Run(r2.vars, r1.trace + r2.trace, r2.halt)
          else
            var r3 := WalkSuccessors(cfg, fuel, blk, i + 1, r2.vars, ctx1);
            Run(r3.vars, r1.trace + r2.trace + r3.trace, r3.halt)
  }

  // ---------------------------------------------------------------------------
  // Entry selection

  /** A function of the module: its name, its CFG and its first block. */
  datatype Function = Function(name: string, cfg: Cfg, entry: Label)

  /** The functions the driver walks must have a body whose first block is in the CFG. */
  predicate Analysable(f: Function)
  {
    IsMainFunction(f.name) ==> WellFormed(f.cfg) && f.entry in f.cfg
  }

  /** The context the driver starts each walk with: an empty loop stack and the switch ON. */
  const EntryContext: Context := Context([], On)

  /** No function before position `j` is a main function. */
  predicate NoMainBefore(funcs: seq<Function>, j: nat)
    requires j <= |funcs|
  {
    forall i :: 0 <= i < j ==> !IsMainFunction(funcs[i].name)
  }

  /** One main function's walk: from its first block, with the entry context. */
  function WalkFunction(f: Function, fuel: nat, vars: Vars): (r: Run)
    requires WellFormed(f.cfg) && f.entry in f.cfg
    ensures fuel > 0 ==> |r.trace| >= 1 && r.trace[0] == Visit(f.entry, vars)
    ensures forall k :: 0 <= k < |r.trace| ==> r.trace[k].blk in f.cfg
  {
    Walk(f.cfg, fuel, f.entry, vars, EntryContext)
  }

  /** The labels of the blocks of every main function of the module. */
  function MainBlocks(funcs: seq<Function>): (ls: set<Label>)
    ensures forall j :: 0 <= j < |funcs| && IsMainFunction(funcs[j].name) ==> funcs[j].cfg.Keys <= ls
    ensures forall l :: l in ls ==>
              exists j :: 0 <= j < |funcs| && IsMainFunction(funcs[j].name) && l in funcs[j].cfg
  {
    if funcs == [] then {}
    else
      assert forall j :: 1 <= j < |funcs| ==> funcs[1..][j - 1] == funcs[j];
      (if IsMainFunction(funcs[0].name) then funcs[0].cfg.Keys else {}) + MainBlocks(funcs[1..])
  }

  /**
    The driver loop: every function whose name starts with "main" is walked from
    its first block with the entry context; the one store is shared by all walks.
   */
  function AnalyzeFunctions(funcs: seq<Function>, fuel: nat, vars: Vars): (r: Run)
    requires forall j :: 0 <= j < |funcs| ==> Analysable(funcs[j])
    ensures forall k :: 0 <= k < |r.trace| ==> r.trace[k].blk in MainBlocks(funcs)
    ensures NoMainBefore(funcs, |funcs|) ==> r == Run(vars, [], Finished)
    ensures fuel > 0 && funcs != [] && IsMainFunction(funcs[0].name) ==>
              |r.trace| > 0 && r.trace[0] == Visit(funcs[0].entry, vars)
    decreases |funcs|
  {
    if funcs == [] then Run(vars, [], Finished)
    else
      var f := funcs[0];
      var rest := funcs[1..];
      if !IsMainFunction(f.name) then
        var r := AnalyzeFunctions(rest, fuel, vars);
        assert forall j :: 0 <= j < |rest| ==> rest[j] == funcs[j + 1];
        r
      else
        assert Analysable(f);
        var r := WalkFunction(f, fuel, vars);
        if r.halt != Finished then r
        else
          var r' := AnalyzeFunctions(rest, fuel, r.vars);
          assert forall j :: 0 <= j < |rest| ==> rest[j] == funcs[j + 1];
          Run(r'.vars, r.trace + r'.trace, r'.halt)
  }

  /** The whole analysis: the driver loop from an empty value store. */
  function AnalyzeModule(funcs: seq<Function>, fuel: nat): (r: Run)
    requires forall j :: 0 <= j < |funcs| ==> Analysable(funcs[j])
    ensures NoMainBefore(funcs, |funcs|) ==> r == Run(map[], [], Finished)
    ensures forall j :: 0 <= j < |funcs| && IsMainFunction(funcs[j].name) && NoMainBefore(funcs, j) ==>
              (fuel > 0 ==> |r.trace| > 0 && r.trace[0] == Visit(funcs[j].entry, map[]))
  {
    EveryFirstMainEnteredFirst(funcs, fuel, map[]);
    AnalyzeFunctions(funcs, fuel, map[])
  }

  // ---------------------------------------------------------------------------
  // Properties of the walk

  /**
    Fuel only bounds the walk: a walk that did not run out of fuel gives the same
    result with any larger fuel.
   */
  lemma {:induction false} WalkFuelMonotone(cfg: Cfg, f: nat, g: nat, blk: Label, vars: Vars, ctx: Context)
    requires WellFormed(cfg) && blk in cfg && f <= g
    requires Walk(cfg, f, blk, vars, ctx).halt != OutOfFuel
    ensures Walk(cfg, g, blk, vars, ctx) == Walk(cfg, f, blk, vars, ctx)
    decreases f, 1, 0
  {
    WalkEnteredFuelMonotone(cfg, f - 1, g - 1, blk, vars, EnterBlock(blk, ctx), AnalyzeBlock(vars, cfg[blk].instrs));
  }

  lemma {:induction false} WalkEnteredFuelMonotone(cfg: Cfg, f: nat, g: nat, blk: Label, vars: Vars,
                                                   entered: Option<Context>, analysed: Option<Vars>)
    requires WellFormed(cfg) && blk in cfg && f <= g
    requires WalkEntered(cfg, f, blk, vars, entered, analysed).halt != OutOfFuel
    ensures WalkEntered(cfg, g, blk, vars, entered, analysed) == WalkEntered(cfg, f, blk, vars, entered, analysed)
    decreases f, 3, 0
  {
    if entered.Some? && analysed.Some? {
      WalkSuccessorsFuelMonotone(cfg, f, g, blk, 0, analysed.value, entered.value);
    }
  }

  lemma {:induction false} WalkSuccessorsFuelMonotone(cfg: Cfg, f: nat, g: nat, blk: Label, i: nat,
                                                      vars: Vars, ctx: Context)
    requires WellFormed(cfg) && blk in cfg && i <= |cfg[blk].succs| && f <= g
    requires WalkSuccessors(cfg, f, blk, i, vars, ctx).halt != OutOfFuel
    ensures WalkSuccessors(cfg, g, blk, i, vars, ctx) == WalkSuccessors(cfg, f, blk, i, vars, ctx)
    decreases f, 2, |cfg[blk].succs| - i
  {
    var succs := cfg[blk].succs;
    if i < |succs| {
      var next := succs[i];
      if !(IsEndLoop(next) && ctx.switch == Off) {
        var replay := IsEndLoop(next) && ctx.switch == On && ctx.stack != [];
        var ctx1 := if replay then ctx.(switch := Off) else ctx;
        var r1 := if replay then Walk(cfg, f, next, vars, ctx1) else Run(vars, [], Finished);
        if replay {
          WalkFuelMonotone(cfg, f, g, next, vars, ctx1);
        }
        if r1.halt == Finished && !IsSameBlock(Top(ctx.stack), Some(next)) {
          var r2 := Walk(cfg, f, next, r1.vars, ctx1);
          WalkFuelMonotone(cfg, f, g, next, r1.vars, ctx1);
          if r2.halt == Finished {
            WalkSuccessorsFuelMonotone(cfg, f, g, blk, i + 1, r2.vars, ctx1);
          }
        }
      }
    }
  }

  /**
    A loop exit met while the switch is OFF ends the block's walk at once: no later
    successor is visited and the block's closing report is not emitted.
   */
  lemma ExitWhileOffReturns(cfg: Cfg, fuel: nat, blk: Label, i: nat, vars: Vars, ctx: Context)
    requires WellFormed(cfg) && blk in cfg && i < |cfg[blk].succs|
    requires IsEndLoop(cfg[blk].succs[i]) && ctx.switch == Off
    ensures WalkSuccessors(cfg, fuel, blk, i, vars, ctx) == Run(vars, [], Finished)
  {
  }

  /**
    A successor that is the innermost active loop header ends the block's walk at
    once, without visiting it, without later successors and without the closing report.
   */
  lemma ReentryReturns(cfg: Cfg, fuel: nat, blk: Label, i: nat, vars: Vars, ctx: Context)
    requires WellFormed(cfg) && blk in cfg && i < |cfg[blk].succs|
    requires HeaderStack(ctx.stack) && ctx.stack != []
    requires cfg[blk].succs[i] == ctx.stack[|ctx.stack| - 1]
    ensures WalkSuccessors(cfg, fuel, blk, i, vars, ctx) == Run(vars, [], Finished)
  {
    HeaderIsNotExit(cfg[blk].succs[i]);
  }

  /**
    The backedge replay: a loop exit met while the switch is ON and a loop is
    active is walked twice in a row (once for the replay, once more by the general
    rule), the second time from the store the first left behind.
   */
  lemma ExitReplayedTwice(cfg: Cfg, fuel: nat, blk: Label, i: nat, vars: Vars, ctx: Context)
    requires WellFormed(cfg) && blk in cfg && i < |cfg[blk].succs| && fuel > 0
    requires HeaderStack(ctx.stack) && ctx.stack != [] && ctx.switch == On
    requires IsEndLoop(cfg[blk].succs[i])
    ensures var next := cfg[blk].succs[i];
            var r := WalkSuccessors(cfg, fuel, blk, i, vars, ctx);
            r.halt == Finished ==>
              && r.trace[0] == Visit(next, vars)
              && exists k :: 0 < k < |r.trace| && r.trace[k].Visit? && r.trace[k].blk == next
    ensures var next := cfg[blk].succs[i];
            var off := ctx.(switch := Off);
            var r1 := Walk(cfg, fuel, next, vars, off);
            var r2 := Walk(cfg, fuel, next, r1.vars, off);
            r1.halt == Finished && r2.halt == Finished ==>
              WalkSuccessors(cfg, fuel, blk, i, vars, ctx).trace ==
                r1.trace + r2.trace + WalkSuccessors(cfg, fuel, blk, i + 1, r2.vars, off).trace
  {
    var next := cfg[blk].succs[i];
    var ctx1 := ctx.(switch := Off);
    var r1 := Walk(cfg, fuel, next, vars, ctx1);
    HeaderIsNotExit(next);
    if r1.halt == Finished {
      var r2 := Walk(cfg, fuel, next, r1.vars, ctx1);
      if r2.halt == Finished {
        var r := WalkSuccessors(cfg, fuel, blk, i, vars, ctx);
        assert r.trace[..|r1.trace| + |r2.trace|] == r1.trace + r2.trace;
        assert r.trace[|r1.trace|] == r2.trace[0];
      }
    }
  }

  /**
    Every instruction of a block is interpreted before any successor is visited:
    the first successor (when it is walked) starts from the store the whole block
    leaves behind.
   */
  lemma InstructionsBeforeSuccessors(cfg: Cfg, fuel: nat, blk: Label, vars: Vars, ctx: Context)
    requires WellFormed(cfg) && blk in cfg && fuel >= 2
    requires EnterBlock(blk, ctx).Some?
    requires AnalyzeBlock(vars, cfg[blk].instrs).Some?
    requires |cfg[blk].succs| > 0
    requires !(IsEndLoop(cfg[blk].succs[0]) && EnterBlock(blk, ctx).value.switch == Off)
    requires Top(EnterBlock(blk, ctx).value.stack) != Some(cfg[blk].succs[0])
    ensures |Walk(cfg, fuel, blk, vars, ctx).trace| > 1
    ensures Walk(cfg, fuel, blk, vars, ctx).trace[1]
            == Visit(cfg[blk].succs[0], AnalyzeBlock(vars, cfg[blk].instrs).value)
  {
    var v := AnalyzeBlock(vars, cfg[blk].instrs).value;
    FirstSuccessorVisited(cfg, fuel - 1, blk, v, EnterBlock(blk, ctx).value);
  }

  /**
    The successor loop starts by visiting the first successor when no rule stops it
    first: an ordinary successor is walked, and so is an exit met with the switch ON
    (replayed when a loop is active, walked plainly otherwise).
   */
  lemma FirstSuccessorVisited(cfg: Cfg, fuel: nat, blk: Label, vars: Vars, ctx: Context)
    requires WellFormed(cfg) && blk in cfg && fuel >= 1
    requires |cfg[blk].succs| > 0
    requires !(IsEndLoop(cfg[blk].succs[0]) && ctx.switch == Off)
    requires Top(ctx.stack) != Some(cfg[blk].succs[0])
    ensures |WalkSuccessors(cfg, fuel, blk, 0, vars, ctx).trace| > 0
    ensures WalkSuccessors(cfg, fuel, blk, 0, vars, ctx).trace[0] == Visit(cfg[blk].succs[0], vars)
  {
    var next := cfg[blk].succs[0];
    if IsEndLoop(next) && ctx.stack != [] {
      var r1 := Walk(cfg, fuel, next, vars, ctx.(switch := Off));
      assert r1.trace[0] == Visit(next, vars);
    } else {
      var r2 := Walk(cfg, fuel, next, vars, ctx);
      assert r2.trace[0] == Visit(next, vars);
    }
  }

  /**
    The general rule of the successor loop: an ordinary successor (not an exit, not
    the active loop's header) is walked from the current store, and the store that
    walk leaves is what the next successor starts from; a walk that does not finish
    ends the loop.
   */
  lemma OrdinarySuccessorThreadsStore(cfg: Cfg, fuel: nat, blk: Label, i: nat, vars: Vars, ctx: Context)
    requires WellFormed(cfg) && blk in cfg && i < |cfg[blk].succs|
    requires !IsEndLoop(cfg[blk].succs[i])
    requires Top(ctx.stack) != Some(cfg[blk].succs[i])
    ensures var w := Walk(cfg, fuel, cfg[blk].succs[i], vars, ctx);
            w.halt != Finished ==> WalkSuccessors(cfg, fuel, blk, i, vars, ctx) == w
    ensures var w := Walk(cfg, fuel, cfg[blk].succs[i], vars, ctx);
            var rest := WalkSuccessors(cfg, fuel, blk, i + 1, w.vars, ctx);
            w.halt == Finished ==>
              WalkSuccessors(cfg, fuel, blk, i, vars, ctx) == Run(rest.vars, w.trace + rest.trace, rest.halt)
  {
    var w := Walk(cfg, fuel, cfg[blk].succs[i], vars, ctx);
    assert [] + w.trace == w.trace;
    var rest := WalkSuccessors(cfg, fuel, blk, i + 1, w.vars, ctx);
    assert [] + w.trace + rest.trace == w.trace + rest.trace;
  }

  /** A block without successors is visited, interpreted and closed, and the walk ends normally. */
  lemma LeafBlock(cfg: Cfg, fuel: nat, blk: Label, vars: Vars, ctx: Context)
    requires WellFormed(cfg) && blk in cfg && fuel >= 1
    requires !IsEndLoop(blk) || ctx.stack != []
    requires AnalyzeBlock(vars, cfg[blk].instrs).Some?
    requires cfg[blk].succs == []
    ensures var v := AnalyzeBlock(vars, cfg[blk].instrs).value;
            Walk(cfg, fuel, blk, vars, ctx) == Run(v, [Visit(blk, vars), Close(blk, v)], Finished)
  {
    var v := AnalyzeBlock(vars, cfg[blk].instrs).value;
    assert WalkSuccessors(cfg, fuel - 1, blk, 0, v, EnterBlock(blk, ctx).value) == Run(v, [Close(blk, v)], Finished);
  }

  /** Entering a loop exit with no active loop is undefined (the source pops an empty stack). */
  lemma ExitWithEmptyStackIsUndefined(cfg: Cfg, fuel: nat, blk: Label, vars: Vars, sw: Switch)
    requires WellFormed(cfg) && blk in cfg && fuel >= 1
    requires IsEndLoop(blk)
    ensures Walk(cfg, fuel, blk, vars, Context([], sw)) == Run(vars, [Visit(blk, vars)], Undefined)
  {
  }

  /** A function whose name does not start with "main" is skipped: the store and the trace are untouched by it. */
  lemma SkipNonMain(funcs: seq<Function>, fuel: nat, vars: Vars)
    requires forall j :: 0 <= j < |funcs| ==> Analysable(funcs[j])
    requires funcs != [] && !IsMainFunction(funcs[0].name)
    ensures forall j :: 0 <= j < |funcs[1..]| ==> Analysable(funcs[1..][j])
    ensures AnalyzeFunctions(funcs, fuel, vars) == AnalyzeFunctions(funcs[1..], fuel, vars)
  {
  }

  /**
    A main function is walked from its first block with the entry context and the
    current store; when that walk finishes, the remaining functions are analysed
    from the store it left, and the traces are concatenated.
   */
  lemma MainWalkedThenRest(funcs: seq<Function>, fuel: nat, vars: Vars)
    requires forall j :: 0 <= j < |funcs| ==> Analysable(funcs[j])
    requires funcs != [] && IsMainFunction(funcs[0].name)
    ensures WellFormed(funcs[0].cfg) && funcs[0].entry in funcs[0].cfg
    ensures forall j :: 0 <= j < |funcs[1..]| ==> Analysable(funcs[1..][j])
    ensures var w := Walk(funcs[0].cfg, fuel, funcs[0].entry, vars, Context([], On));
            var r := AnalyzeFunctions(funcs, fuel, vars);
            && (w.halt != Finished ==> r == w)
            && (w.halt == Finished ==>
                  var rest := AnalyzeFunctions(funcs[1..], fuel, w.vars);
                  r == Run(rest.vars, w.trace + rest.trace, rest.halt))
  {
    assert Analysable(funcs[0]);
  }

  /**
    The analysis starts at the first block of the first main function, with the
    store it was given: every function before it is skipped.
   */
  lemma FirstMainEnteredFirst(funcs: seq<Function>, fuel: nat, vars: Vars, j: nat)
    requires forall i :: 0 <= i < |funcs| ==> Analysable(funcs[i])
    requires j < |funcs| && IsMainFunction(funcs[j].name) && NoMainBefore(funcs, j) && fuel > 0
    ensures |AnalyzeFunctions(funcs, fuel, vars).trace| > 0
    ensures AnalyzeFunctions(funcs, fuel, vars).trace[0] == Visit(funcs[j].entry, vars)
  {
    SkipLeadingNonMain(funcs, fuel, vars, j);
    assert funcs[j..][0] == funcs[j];
  }

  /** The functions before the first main function are skipped altogether. */
  lemma {:induction false} SkipLeadingNonMain(funcs: seq<Function>, fuel: nat, vars: Vars, j: nat)
    requires forall i :: 0 <= i < |funcs| ==> Analysable(funcs[i])
    requires j <= |funcs| && NoMainBefore(funcs, j)
    ensures forall i :: 0 <= i < |funcs[j..]| ==> Analysable(funcs[j..][i])
    ensures AnalyzeFunctions(funcs, fuel, vars) == AnalyzeFunctions(funcs[j..], fuel, vars)
    decreases j
  {
    if j > 0 {
      assert !IsMainFunction(funcs[0].name);
      SkipNonMain(funcs, fuel, vars);
      NoMainBeforeTail(funcs, j);
      SkipLeadingNonMain(funcs[1..], fuel, vars, j - 1);
      assert funcs[1..][j - 1..] == funcs[j..];
    }
  }

  lemma NoMainBeforeTail(funcs: seq<Function>, j: nat)
    requires 0 < j <= |funcs| && NoMainBefore(funcs, j)
    ensures NoMainBefore(funcs[1..], j - 1)
  {
    forall i | 0 <= i < j - 1 ensures !IsMainFunction(funcs[1..][i].name) {
      assert funcs[1..][i] == funcs[i + 1];
    }
  }

  /** `FirstMainEnteredFirst` for every position at once. */
  lemma EveryFirstMainEnteredFirst(funcs: seq<Function>, fuel: nat, vars: Vars)
    requires forall i :: 0 <= i < |funcs| ==> Analysable(funcs[i])
    ensures forall j :: 0 <= j < |funcs| && IsMainFunction(funcs[j].name) && NoMainBefore(funcs, j) ==>
              (fuel > 0 ==> |AnalyzeFunctions(funcs, fuel, vars).trace| > 0 &&
                            AnalyzeFunctions(funcs, fuel, vars).trace[0] == Visit(funcs[j].entry, vars))
  {
    forall j | 0 <= j < |funcs| && IsMainFunction(funcs[j].name) && NoMainBefore(funcs, j) && fuel > 0
      ensures |AnalyzeFunctions(funcs, fuel, vars).trace| > 0
      ensures AnalyzeFunctions(funcs, fuel, vars).trace[0] == Visit(funcs[j].entry, vars)
    {
      FirstMainEnteredFirst(funcs, fuel, vars, j);
    }
  }

  /** A module with one main function is analysed by one walk from its first block with the entry context. */
  lemma SingleMainFunction(f: Function, fuel: nat)
    requires Analysable(f) && IsMainFunction(f.name)
    ensures AnalyzeModule([f], fuel) == Walk(f.cfg, fuel, f.entry, map[], Context([], On))
  {
    var r := Walk(f.cfg, fuel, f.entry, map[], EntryContext);
    if r.halt == Finished {
      assert r.trace + [] == r.trace;
    }
  }
}
