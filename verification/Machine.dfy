/** The stack machine: one instruction at a time, for a frame whose slots start at the bottom of the stack. */
module Machine {
  import opened Values
  import opened Bytecode

  datatype State =
    | Running(ip: nat, stack: seq<Value>)
    | Halted(result: Value)
    | Faulted(error: RuntimeError)
    | Stuck  // the code is not well formed

  function Top(stack: seq<Value>, i: nat): Value
    requires i < |stack|
  {
    stack[|stack| - 1 - i]
  }

  function PopN(stack: seq<Value>, n: nat): seq<Value>
    requires n <= |stack|
  {
    stack[..|stack| - n]
  }

  function BinaryOpcode(op: byte): BinOp
    requires op == EQUAL || GREATER <= op <= MODULO
  {
    if op == EQUAL then BinOp.Equal else if op == GREATER then BinOp.Greater else if op == LESS then BinOp.Less
    else if op == ADD then BinOp.Add else if op == SUBTRACT then BinOp.Subtract
    else if op == MULTIPLY then BinOp.Multiply else if op == DIVIDE then BinOp.Divide else BinOp.Modulo
  }

  /** Number of operand bytes after an opcode. */
  function OperandSize(op: byte): nat {
    if op == CONST8 || op == POPN then 1
    else if op == CONST16 || op == GET_LOCAL || op == SET_LOCAL || op == JUMP || op == JUMP_IF_FALSE || op ==
      LOOP then 2
    else if op == IMMI then 4
    else 0
  }

  /** Executes the instruction at `ip`. */
  function Step(chunk: Chunk, ip: nat, stack: seq<Value>): State {
    var code := chunk.code;
    if ip >= |code| || ip + 1 + OperandSize(code[ip]) > |code| then Stuck
    else
      var op := code[ip];
      var next := ip + 1 + OperandSize(op);
      if op == CONST8 then
        if code[ip + 1] < |chunk.constants| then Running(next, stack + [Number(chunk.constants[code[ip + 1]])])
        else Stuck
      else if op == CONST16 then
        var i := ReadU16(code, ip + 1);
        if i < |chunk.constants| then Running(next, stack + [Number(chunk.constants[i])]) else Stuck
      else if op == IMMI then Running(next, stack + [Number(Fin(ReadI32(code, ip + 1) as real))])
      else if op == NIL then Running(next, stack + [Nil])
      else if op == TRUE then Running(next, stack + [Bool(true)])
      else if op == FALSE then Running(next, stack + [Bool(false)])
      else if op == POP then
        if |stack| >= 1 then Running(next, PopN(stack, 1)) else Stuck
      else if op == POPN then
        if |stack| >= code[ip + 1] then Running(next, PopN(stack, code[ip + 1])) else Stuck
      else if op == GET_LOCAL then
        // the second operand scales the number of extra arguments, of which a script frame has none
        if code[ip + 1] < |stack| then Running(next, stack + [stack[code[ip + 1]]]) else Stuck
      else if op == SET_LOCAL then
        if code[ip + 1] < |stack| then Running(next, stack[code[ip + 1] := Top(stack, 0)]) else Stuck
      else if op == EQUAL || GREATER <= op <= MODULO then
        if |stack| < 2 then Stuck
        else
          match Apply(BinaryOpcode(op), Top(stack, 1), Top(stack, 0))
          case Val(v) => Running(next, PopN(stack, 2) + [v])
          case Err(e) => Faulted(e)
      else if op == NOT then
        if |stack| >= 1 then Running(next, PopN(stack, 1) + [Bool(IsFalsey(Top(stack, 0)))]) else Stuck
      else if op == NEGATE then
        if |stack| < 1 then Stuck
        else if Top(stack, 0).Number? then Running(next, PopN(stack, 1) + [Number(NumNegate(Top(stack, 0).n))])
        else Faulted(OperandNotNumber)
      else if op == JUMP then Running(next + ReadU16(code, ip + 1), stack)
      else if op == JUMP_IF_FALSE then
        if |stack| < 1 then Stuck
        else if IsFalsey(Top(stack, 0)) then Running(next + ReadU16(code, ip + 1), stack)
        else Running(next, stack)
      else if op == LOOP then
        if ReadU16(code, ip + 1) <= next then Running(next - ReadU16(code, ip + 1), stack) else Stuck
      else if op == RETURN then
        if |stack| >= 1 then Halted(Top(stack, 0)) else Stuck
      else Stuck
  }

  function StepState(chunk: Chunk, s: State): State {
    if s.Running? then Step(chunk, s.ip, s.stack) else s
  }

  function Steps(chunk: Chunk, s: State, n: nat): State
    decreases n
  {
    if n == 0 then s else Steps(chunk, StepState(chunk, s), n - 1)
  }

  lemma {:induction false} StepsAdd(chunk: Chunk, s: State, m: nat, n: nat)
    ensures Steps(chunk, s, m + n) == Steps(chunk, Steps(chunk, s, m), n)
    decreases m
  {
    if m > 0 {
      StepsAdd(chunk, StepState(chunk, s), m - 1, n);
    }
  }

  lemma {:induction false} FinalStays(chunk: Chunk, s: State, n: nat)
    requires !s.Running?
    ensures Steps(chunk, s, n) == s
    decreases n
  {
    if n > 0 {
      FinalStays(chunk, s, n - 1);
    }
  }

  /** A state that runs after `m` steps runs after fewer. */
  lemma StillRunning(chunk: Chunk, s: State, m: nat, n: nat)
    requires n <= m && Steps(chunk, s, m).Running?
    ensures Steps(chunk, s, n).Running?
  {
    StepsAdd(chunk, s, n, m - n);
    if !Steps(chunk, s, n).Running? {
      FinalStays(chunk, Steps(chunk, s, n), m - n);
    }
  }

  /** Two runs that both come to an end come to the same end. */
  lemma RunsAgree(chunk: Chunk, s: State, m: nat, n: nat)
    requires !Steps(chunk, s, m).Running? && !Steps(chunk, s, n).Running?
    ensures Steps(chunk, s, m) == Steps(chunk, s, n)
  {
    if m <= n {
      StepsAdd(chunk, s, m, n - m);
      FinalStays(chunk, Steps(chunk, s, m), n - m);
    } else {
      StepsAdd(chunk, s, n, m - n);
      FinalStays(chunk, Steps(chunk, s, n), m - n);
    }
  }

  /** The dispatch loop over the frame's instruction pointer and the fiber's value stack, an array that is used up to
      `stackTop`. Nothing checks for overflow on a push, so callers provide the room. */
  class Fiber {
    const stack: array<Value>
    var stackTop: nat
    var ip: nat

    ghost predicate Valid()
      reads this
    {
      stackTop <= stack.Length
    }

    /** The values on the stack, bottom first. */
    ghost function Contents(): seq<Value>
      requires Valid()
      reads this, stack
    {
      stack[..stackTop]
    }

    /** A fiber about to run a script, whose slot 0 holds the receiver. */
    constructor (capacity: nat, receiver: Value)
      requires capacity > 0
      ensures Valid() && fresh(stack) && stack.Length == capacity && Contents() == [receiver] && ip == 0
    {
      stack := new Value[capacity](_ => Nil);
      stackTop, ip := 1, 0;
      new;
      stack[0] := receiver;
    }

    method Push(v: Value)
      requires Valid() && stackTop < stack.Length
      modifies this`stackTop, stack
      ensures Valid() && stackTop == old(stackTop) + 1 && Contents() == old(Contents()) + [v]
    {
      stack[stackTop] := v;
      stackTop := stackTop + 1;
    }

    method Pop() returns (v: Value)
      requires Valid() && stackTop > 0
      modifies this`stackTop
      ensures Valid() && stackTop == old(stackTop) - 1 && old(Contents()) == Contents() + [v]
    {
      stackTop := stackTop - 1;
      v := stack[stackTop];
    }

    method PopMany(n: nat)
      requires Valid() && n <= stackTop
      modifies this`stackTop
      ensures Valid() && stackTop == old(stackTop) - n && Contents() == PopN(old(Contents()), n)
    {
      stackTop := stackTop - n;
    }

    method SetSlot(slot: nat)
      requires Valid() && slot < stackTop
      modifies stack
      ensures Contents() == old(Contents())[slot := Top(old(Contents()), 0)]
    {
      stack[slot] := stack[stackTop - 1];
    }

    /** Executes one instruction. */
    method Execute(chunk: Chunk) returns (s: State)
      requires Valid() && stackTop < stack.Length
      modifies this, stack
      ensures s == Step(chunk, old(ip), old(Contents()))
      ensures Valid() && stackTop <= old(stackTop) + 1
      ensures s.Running? ==> ip == s.ip && Contents() == s.stack
    {
      hide Apply, IsFalsey, NumNegate, PopN;
      var code := chunk.code;
      if ip >= |code| || ip + 1 + OperandSize(code[ip]) > |code| {
        return Stuck;
      }
      var op := code[ip];
      var at := ip + 1;
      ip := at + OperandSize(op);
      if op == CONST8 || op == CONST16 {
        var i := if op == CONST8 then code[at] as nat else ReadU16(code, at);
        if i >= |chunk.constants| {
          return Stuck;
        }
        Push(Number(chunk.constants[i]));
      } else if op == IMMI {
        Push(Number(Fin(ReadI32(code, at) as real)));
      } else if op == NIL {
        Push(Nil);
      } else if op == TRUE {
        Push(Bool(true));
      } else if op == FALSE {
        Push(Bool(false));
      } else if op == POP || op == POPN {
        var n := if op == POP then 1 else code[at] as nat;
        if stackTop < n {
          return Stuck;
        }
        PopMany(n);
      } else if op == GET_LOCAL {
        if code[at] >= stackTop {
          return Stuck;
        }
        Push(stack[code[at]]);
      } else if op == SET_LOCAL {
        if code[at] >= stackTop {
          return Stuck;
        }
        SetSlot(code[at]);
      } else if op == EQUAL || GREATER <= op <= MODULO {
        s := ExecuteBinary(BinaryOpcode(op));
        return;
      } else if op == NOT || op == NEGATE {
        s := ExecuteUnary(op);
        return;
      } else if op == JUMP {
        ip := ip + ReadU16(code, at);
      } else if op == JUMP_IF_FALSE {
        if stackTop == 0 {
          return Stuck;
        }
        if IsFalsey(stack[stackTop - 1]) {
          ip := ip + ReadU16(code, at);
        }
      } else if op == LOOP {
        if ReadU16(code, at) > ip {
          return Stuck;
        }
        ip := ip - ReadU16(code, at);
      } else if op == RETURN {
        if stackTop == 0 {
          return Stuck;
        }
        return Halted(stack[stackTop - 1]);
      } else {
        return Stuck;
      }
      return Running(ip, stack[..stackTop]);
    }

    method ExecuteUnary(op: byte) returns (s: State)
      requires Valid() && (op == NOT || op == NEGATE)
      modifies this`stackTop, stack
      ensures Valid() && stackTop <= old(stackTop)
      ensures
        s == if old(stackTop) == 0 then Stuck
             else
               var v := Top(old(Contents()), 0);
               if op == NOT then Running(ip, PopN(old(Contents()), 1) + [Bool(IsFalsey(v))])
               else if v.Number? then Running(ip, PopN(old(Contents()), 1) + [Number(NumNegate(v.n))])
               else Faulted(OperandNotNumber)
      ensures s.Running? ==> Contents() == s.stack
    {
      if stackTop == 0 {
        return Stuck;
      }
      if op == NEGATE && !stack[stackTop - 1].Number? {
        return Faulted(OperandNotNumber);
      }
      var v := Pop();
      Push(if op == NOT then Bool(IsFalsey(v)) else Number(NumNegate(v.n)));
      return Running(ip, stack[..stackTop]);
    }

    method ExecuteBinary(op: BinOp) returns (s: State)
      requires Valid()
      modifies this`stackTop, stack
      ensures Valid() && stackTop <= old(stackTop)
      ensures
        s == if old(stackTop) < 2 then Stuck
             else match Apply(op, Top(old(Contents()), 1), Top(old(Contents()), 0))
               case Val(v) => Running(ip, PopN(old(Contents()), 2) + [v])
               case Err(e) => Faulted(e)
      ensures s.Running? ==> Contents() == s.stack
    {
      hide Apply;
      if stackTop < 2 {
        return Stuck;
      }
      var r := Apply(op, stack[stackTop - 2], stack[stackTop - 1]);
      if r.Err? {
        return Faulted(r.e);
      }
      PopMany(2);
      Push(r.v);
      return Running(ip, stack[..stackTop]);
    }

    /** Runs for at most `fuel` instructions; each pushes one value at most. */
    method Run(chunk: Chunk, fuel: nat) returns (s: State)
      requires Valid() && stackTop + fuel <= stack.Length
      modifies this, stack
      ensures s == Steps(chunk, Running(old(ip), old(Contents())), fuel)
    {
      hide Step;
      s := Running(ip, stack[..stackTop]);
      ghost var start := s;
      var n: nat := 0;
      while n < fuel && s.Running?
        invariant n <= fuel && Valid() && stackTop + (fuel - n) <= stack.Length
        invariant s == Steps(chunk, start, n)
        invariant s.Running? ==> ip == s.ip && Contents() == s.stack
        decreases fuel - n
      {
        StepsAdd(chunk, start, n, 1);
        assert Steps(chunk, s, 1) == Steps(chunk, StepState(chunk, s), 0);
        s := Execute(chunk);
        n := n + 1;
      }
      if !s.Running? {
        StepsAdd(chunk, start, n, fuel - n);
        FinalStays(chunk, s, fuel - n);
      }
    }
  }
}
