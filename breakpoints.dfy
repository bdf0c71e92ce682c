// jit/Debugger/Breakpoints.h: the debugger's breakpoint and memory-check
// records and the flag arithmetic on their actions.
//
// A BreakAction is a set of flags (LOG = 1, PAUSE = 2) held in the enum's
// 32-bit representation.  The expression evaluator behind a breakpoint
// condition is outside this model: `Evaluate` receives the parser's
// outcome (None when parsing failed).
module Breakpoints {
  import opened Words

  type BreakAction = u32

  const BreakActionIgnore: BreakAction := 0x00
  const BreakActionLog: BreakAction := 0x01
  const BreakActionPause: BreakAction := 0x02

  const MemcheckRead: u32 := 0x01
  const MemcheckWrite: u32 := 0x02
  const MemcheckWriteOnChange: u32 := 0x04
  const MemcheckReadWrite: u32 := 0x03

  /** `lhs | rhs`: an action carries a flag iff either operand does. */
  function Or(lhs: BreakAction, rhs: BreakAction): (r: BreakAction)
    ensures r & BreakActionLog != 0 <==> lhs & BreakActionLog != 0 || rhs & BreakActionLog != 0
    ensures r & BreakActionPause != 0 <==> lhs & BreakActionPause != 0 || rhs & BreakActionPause != 0
  {
    lhs | rhs
  }

  /** Combining actions does not depend on the order and adding a flag twice changes nothing. */
  lemma OrLaws(a: BreakAction, b: BreakAction)
    ensures Or(a, b) == Or(b, a)
    ensures Or(Or(a, b), b) == Or(a, b)
    ensures Or(a, BreakActionIgnore) == a
  {
  }

  /** A variable of type BreakAction, so that `|=` can assign through it. */
  class BreakActionVar {
    var value: BreakAction

    /** `lhs |= rhs`: stores `lhs | rhs` and returns the new value. */
    method OrAssign(rhs: BreakAction) returns (r: BreakAction)
      modifies this
      ensures value == Or(old(value), rhs)
      ensures r == value
    {
      value := value | rhs;
      r := value;
    }
  }

  datatype BreakPointCond = BreakPointCond(expressionString: string)

  /** BreakPointCond::Evaluate: the parsed value, or 0 when the expression does not parse. */
  function Evaluate(cond: BreakPointCond, parsed: Option<u32>): (r: u32)
    ensures parsed.None? ==> r == 0
    ensures parsed.Some? ==> r == parsed.value
  {
    match parsed
    case None => 0
    case Some(result) => result
  }

  datatype BreakPoint = BreakPoint(
    addr: u32,
    temporary: bool,
    result: BreakAction,
    logFormat: string,
    hasCond: bool,
    cond: BreakPointCond)
  {
    /** Enabled means the breakpoint pauses; logging alone does not enable it. */
    predicate IsEnabled()
    {
      result & BreakActionPause != 0
    }

    /** `==` and `<` look at the address only. */
    predicate Equals(other: BreakPoint)
    {
      addr == other.addr
    }

    /** The unsigned comparison of the two addresses. */
    predicate Less(other: BreakPoint)
    {
      addr as int < other.addr as int
    }
  }

  /** Breakpoints are strictly ordered by address. */
  lemma BreakPointOrder(a: BreakPoint, b: BreakPoint, c: BreakPoint)
    ensures !a.Less(a)
    ensures a.Less(b) && b.Less(c) ==> a.Less(c)
  {
  }

  /** Breakpoints at the same address are equal whatever their other fields, and unordered. */
  lemma BreakPointEquality(a: BreakPoint, b: BreakPoint)
    ensures a.Equals(b) <==> a.addr == b.addr
    ensures a.Equals(b) ==> !a.Less(b) && !b.Less(a)
  {
  }

  /** Adding PAUSE to a breakpoint's action enables it; adding LOG keeps it as it was. */
  lemma EnableByPause(bp: BreakPoint)
    ensures bp.(result := Or(bp.result, BreakActionPause)).IsEnabled()
    ensures bp.(result := Or(bp.result, BreakActionLog)).IsEnabled() == bp.IsEnabled()
  {
  }

  datatype MemCheck = MemCheck(
    start: u32,
    end: u32,
    cond: u32,
    result: BreakAction,
    logFormat: string,
    numHits: u32,
    lastPC: u32,
    lastAddr: u32,
    lastSize: int)
  {
    predicate IsEnabled()
    {
      result & BreakActionPause != 0
    }

    /** `==` looks at the range only. */
    predicate Equals(other: MemCheck)
    {
      start == other.start && end == other.end
    }
  }

  /** Memory checks with the same range are equal whatever their condition, action and counters. */
  lemma MemCheckEquality(a: MemCheck, b: MemCheck)
    ensures a.Equals(b) <==> a.start == b.start && a.end == b.end
    ensures a.Equals(a)
    ensures a.Equals(b) ==> b.Equals(a)
  {
  }
}
