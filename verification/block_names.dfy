/**
  The name predicates of the traversal. Loop headers, loop exits and the entry
  function are recognised by a `strncmp` against a fixed prefix, compared over the
  prefix's length; blocks are identified by name.
 */
module BlockNames {
  import opened ValueStore

  const MainFunction: string := "main"
  const LoopBeginBlockName: string := "while.cond"
  const LoopEndBlockName: string := "while.end"

  /** The character at position `k` of a C string: past the end there is the terminator. */
  function CharAt(s: string, k: nat): char
  {
    if k < |s| then s[k] else '\0'
  }

  /**
    `strncmp`: compares at most `n` characters, stopping at the first difference
    or at a common terminator; zero means "equal up to that point".
   */
  function StrNCmp(a: string, b: string, n: nat): (r: int)
    ensures a == b ==> r == 0
    ensures r != 0 ==> exists k :: 0 <= k < n && CharAt(a, k) != CharAt(b, k)
    decreases n
  {
    if n == 0 then 0
    else if CharAt(a, 0) != CharAt(b, 0) then (CharAt(a, 0) as int) - (CharAt(b, 0) as int)
    else if CharAt(a, 0) == '\0' then 0
    else
      var r := StrNCmp(a[1..], b[1..], n - 1);
      if r == 0 then r
      else
        var k :| 0 <= k < n - 1 && CharAt(a[1..], k) != CharAt(b[1..], k);
        assert CharAt(a, k + 1) != CharAt(b, k + 1);
        r
  }

  predicate NulFree(s: string)
  {
    forall k :: 0 <= k < |s| ==> s[k] != '\0'
  }

  /** Against a terminator-free pattern, `strncmp` over the pattern's length is a prefix test. */
  lemma {:induction false} StrNCmpIsPrefixTest(a: string, p: string)
    requires NulFree(p)
    ensures StrNCmp(a, p, |p|) == 0 <==> p <= a
    decreases |p|
  {
    if p != [] {
      if CharAt(a, 0) == p[0] {
        assert |a| > 0;
        StrNCmpIsPrefixTest(a[1..], p[1..]);
        assert p <= a <==> p[1..] <= a[1..];
      }
    }
  }

  /** `isMainFunction`: the function's name starts with "main". */
  predicate IsMainFunction(name: string)
  {
    MainFunction <= name
  }

  /** `isBeginLoop`: the block's name starts with "while.cond" (so "while.cond5" is a header too). */
  predicate IsBeginLoop(name: string)
  {
    LoopBeginBlockName <= name
  }

  /** `isEndLoop`: the block's name starts with "while.end". */
  predicate IsEndLoop(name: string)
  {
    LoopEndBlockName <= name
  }

  /**
    The three name predicates are exactly the `strncmp` calls of the source: each
    compares the name with its pattern over the pattern's length and tests for 0.
   */
  lemma NamePredicatesAreStrNCmp(name: string)
    ensures IsMainFunction(name) <==> StrNCmp(name, MainFunction, |MainFunction|) == 0
    ensures IsBeginLoop(name) <==> StrNCmp(name, LoopBeginBlockName, |LoopBeginBlockName|) == 0
    ensures IsEndLoop(name) <==> StrNCmp(name, LoopEndBlockName, |LoopEndBlockName|) == 0
  {
    StrNCmpIsPrefixTest(name, MainFunction);
    StrNCmpIsPrefixTest(name, LoopBeginBlockName);
    StrNCmpIsPrefixTest(name, LoopEndBlockName);
  }

  /** `isSameBlock`: false when either block is missing, otherwise whether the names are equal. */
  function IsSameBlock(a: Option<string>, b: Option<string>): (r: bool)
    ensures r ==> a.Some? && b.Some?
    ensures a.Some? && b.Some? ==> (r <==> a.value == b.value)
  {
    if a.None? || b.None? then false else a.value == b.value
  }

  /** No block name is both a loop header and a loop exit. */
  lemma HeaderIsNotExit(name: string)
    ensures !(IsBeginLoop(name) && IsEndLoop(name))
  {
    if IsBeginLoop(name) {
      assert name[6] == LoopBeginBlockName[6] != LoopEndBlockName[6];
    }
  }

  /** Numbered header and exit blocks, as the compiler names nested loops, are recognised. */
  lemma NumberedLoopBlocks()
    ensures IsBeginLoop("while.cond5") && IsEndLoop("while.end12")
    ensures !IsBeginLoop("while.body") && !IsEndLoop("while.body")
    ensures !IsBeginLoop("while") && IsMainFunction("main") && !IsMainFunction("mai")
  {
    assert LoopBeginBlockName <= "while.cond5";
    assert LoopEndBlockName <= "while.end12";
    assert "while.body"[6] != LoopBeginBlockName[6];
    assert "while.body"[6] != LoopEndBlockName[6];
  }
}
