/** The 3-bit register machine of day 17, part 2 (17-2/main.go).
    Registers hold non-negative integers: they are loaded from decimal digits
    and every instruction maps non-negative values to non-negative values, so
    `nat` models Go's `int` here (see XorBound for why no 64-bit overflow can
    arise from a 63-bit input). */
module ThreeBitMachine {
  import opened Bits

  /** Go's `x >> k` on a non-negative int: k halvings, each rounding down
      (a count of 64 or more gives 0, as it does here for 63-bit values). */
  function ShiftRight(x: nat, k: nat): nat
    decreases k
  {
    if k == 0 then x else ShiftRight(x / 2, k - 1)
  }

  /** `x & 0x07`. */
  function Low3(x: nat): nat
  {
    x % 8
  }

  /** A shift never grows a register. */
  lemma {:induction false} ShiftRightShrinks(x: nat, k: nat)
    ensures ShiftRight(x, k) <= x
    decreases k
  {
    if k > 0 {
      ShiftRightShrinks(x / 2, k - 1);
    }
  }

  /** The eight opcodes, in the order of their numeric values. */
  const ADV: nat := 0
  const BXL: nat := 1
  const BST: nat := 2
  const JNZ: nat := 3
  const BXC: nat := 4
  const OUT: nat := 5
  const BDV: nat := 6
  const CDV: nat := 7

  /** The registers, the instruction pointer and the output so far. */
  datatype Config = Config(a: nat, b: nat, c: nat, ip: nat, out: seq<nat>)

  /** The combo operand: 0..3 stand for themselves, 4, 5, 6 name A, B, C; the
      source has no case for 7 and up, so those stay literal. */
  function Combo(literal: nat, cfg: Config): (r: nat)
    ensures literal <= 3 || literal >= 7 ==> r == literal
    ensures literal == 4 ==> r == cfg.a
    ensures literal == 5 ==> r == cfg.b
    ensures literal == 6 ==> r == cfg.c
  {
    if literal == 4 then cfg.a
    else if literal == 5 then cfg.b
    else if literal == 6 then cfg.c
    else literal
  }

  /** One instruction, operands already read and InstPtr already advanced by 2.
      Opcodes above 7 fall through the source's switch and do nothing. */
  function Execute(op: nat, literal: nat, cfg: Config): Config
  {
    var combo := Combo(literal, cfg);
    if op == ADV then cfg.(a := ShiftRight(cfg.a, combo))
    else if op == BXL then cfg.(b := Xor(cfg.b, literal))
    else if op == BST then cfg.(b := Low3(combo))
    else if op == JNZ then (if cfg.a != 0 then cfg.(ip := literal) else cfg)
    else if op == BXC then cfg.(b := Xor(cfg.b, cfg.c))
    else if op == OUT then cfg.(out := cfg.out + [Low3(combo)])
    else if op == BDV then cfg.(b := ShiftRight(cfg.a, combo))
    else if op == CDV then cfg.(c := ShiftRight(cfg.a, combo))
    else cfg
  }

  /** What one turn of Run's loop does. Reading the operand past the end of
      the program is an index-out-of-range panic in the source: Fault. */
  datatype StepResult = Halt | Fault | Next(cfg: Config)

  function Step(prog: seq<nat>, cfg: Config): StepResult
  {
    if cfg.ip >= |prog| then Halt
    else if cfg.ip + 1 >= |prog| then Fault
    else Next(Execute(prog[cfg.ip], prog[cfg.ip + 1], cfg.(ip := cfg.ip + 2)))
  }

  /** How a bounded run ends: the fuel stands for the source's unbounded loop. */
  datatype Outcome = Halted | Faulted | OutOfFuel

  function Exec(prog: seq<nat>, cfg: Config, fuel: nat): (Outcome, Config)
    decreases fuel
  {
    match Step(prog, cfg)
    case Halt => (Halted, cfg)
    case Fault => (Faulted, cfg)
    case Next(next) => if fuel == 0 then (OutOfFuel, cfg) else Exec(prog, next, fuel - 1)
  }

  // ---------------------------------------------------------------------
  // Properties of a single step

  lemma StepHaltsExactlyAtEnd(prog: seq<nat>, cfg: Config)
    ensures Step(prog, cfg).Halt? <==> cfg.ip >= |prog|
  {
  }

  /** Divisions read A as the numerator and store into A, B or C respectively,
      leaving the other registers alone. */
  lemma DivisionsReadA(op: nat, literal: nat, cfg: Config)
    requires op == ADV || op == BDV || op == CDV
    ensures var r := Execute(op, literal, cfg);
      var q := ShiftRight(cfg.a, Combo(literal, cfg));
      && q <= cfg.a
      && (op == ADV ==> r == cfg.(a := q))
      && (op == BDV ==> r == cfg.(b := q))
      && (op == CDV ==> r == cfg.(c := q))
  {
    ShiftRightShrinks(cfg.a, Combo(literal, cfg));
  }

  /** JNZ jumps to the literal iff A is non-zero; otherwise the pointer has
      moved on by two. */
  lemma JumpOnlyWhenANonZero(prog: seq<nat>, cfg: Config)
    requires cfg.ip + 1 < |prog| && prog[cfg.ip] == JNZ
    ensures Step(prog, cfg).Next?
    ensures Step(prog, cfg).cfg.ip == if cfg.a != 0 then prog[cfg.ip + 1] else cfg.ip + 2
    ensures Step(prog, cfg).cfg.(ip := cfg.ip) == cfg
  {
  }

  /** A step only ever appends to the output, at most one value, and the
      value it appends lies in [0, 8); B stays 3-bit after BST. */
  lemma StepOutput(prog: seq<nat>, cfg: Config)
    requires Step(prog, cfg).Next?
    ensures var next := Step(prog, cfg).cfg;
      && cfg.out <= next.out
      && |next.out| <= |cfg.out| + 1
      && (|next.out| == |cfg.out| + 1 <==> prog[cfg.ip] == OUT)
      && (forall i :: |cfg.out| <= i < |next.out| ==> next.out[i] < 8)
      && (prog[cfg.ip] == BST ==> next.b < 8)
  {
  }

  // ---------------------------------------------------------------------
  // Properties of whole runs

  /** Output is only appended: earlier outputs never change, and every value a
      run adds is a 3-bit value. */
  lemma {:induction false} ExecOutputExtends(prog: seq<nat>, cfg: Config, fuel: nat)
    ensures var (_, fin) := Exec(prog, cfg, fuel);
      cfg.out <= fin.out && forall i :: |cfg.out| <= i < |fin.out| ==> fin.out[i] < 8
    decreases fuel
  {
    match Step(prog, cfg)
    case Halt =>
    case Fault =>
    case Next(next) =>
      if fuel > 0 {
        StepOutput(prog, cfg);
        ExecOutputExtends(prog, next, fuel - 1);
      }
  }

  /** A run reports Halted exactly when it stopped with the pointer at or past
      the end of the program. */
  lemma {:induction false} ExecHaltsAtEnd(prog: seq<nat>, cfg: Config, fuel: nat)
    ensures var (o, fin) := Exec(prog, cfg, fuel);
      (o == Halted <==> fin.ip >= |prog|) && (o == Faulted ==> fin.ip == |prog| - 1)
    decreases fuel
  {
    match Step(prog, cfg)
    case Halt =>
    case Fault =>
    case Next(next) =>
      if fuel > 0 {
        ExecHaltsAtEnd(prog, next, fuel - 1);
      }
  }

  /** More fuel does not change a run that already finished. */
  lemma {:induction false} ExecFuelMonotone(prog: seq<nat>, cfg: Config, fuel: nat, more: nat)
    requires Exec(prog, cfg, fuel).0 != OutOfFuel
    ensures Exec(prog, cfg, fuel + more) == Exec(prog, cfg, fuel)
    decreases fuel
  {
    match Step(prog, cfg)
    case Halt =>
    case Fault =>
    case Next(next) =>
      ExecFuelMonotone(prog, next, fuel - 1, more);
  }

  /** The machine of the source: registers, instruction pointer, program and
      output, updated in place by Run. */
  class Machine {
    var A: nat
    var B: nat
    var C: nat
    var InstPtr: nat
    var Prog: seq<nat>
    var Output: seq<nat>

    function State(): Config
      reads this
    {
      Config(A, B, C, InstPtr, Output)
    }

    constructor (a: nat, b: nat, c: nat, prog: seq<nat>)
      ensures State() == Config(a, b, c, 0, []) && Prog == prog
    {
      A, B, C := a, b, c;
      InstPtr := 0;
      Prog := prog;
      Output := [];
    }

    /** A copy with its own program and output: a fresh object, so updating it
        cannot change this machine. */
    method Clone() returns (m2: Machine)
      ensures fresh(m2)
      ensures m2.State() == State() && m2.Prog == Prog
    {
      m2 := new Machine(A, B, C, Prog);
      m2.InstPtr := InstPtr;
      m2.Output := Output;
    }

    /** The source's loop, run for at most `fuel` instructions. */
    method Run(fuel: nat) returns (outcome: Outcome)
      modifies this
      ensures Prog == old(Prog)
      ensures (outcome, State()) == Exec(Prog, old(State()), fuel)
    {
      var left := fuel;
      while true
        invariant Prog == old(Prog)
        invariant Exec(Prog, State(), left) == Exec(Prog, old(State()), fuel)
        decreases left
      {
        if InstPtr >= |Prog| {
          return Halted;
        }
        if InstPtr + 1 >= |Prog| {
          return Faulted;
        }
        if left == 0 {
          return OutOfFuel;
        }
        var inst := Prog[InstPtr];
        InstPtr := InstPtr + 1;
        var literal := Prog[InstPtr];
        InstPtr := InstPtr + 1;
        var combo := literal;
        if literal == 4 {
          combo := A;
        } else if literal == 5 {
          combo := B;
        } else if literal == 6 {
          combo := C;
        }
        if inst == ADV {
          A := ShiftRight(A, combo);
        } else if inst == BXL {
          B := Xor(B, literal);
        } else if inst == BST {
          B := Low3(combo);
        } else if inst == JNZ {
          if A != 0 {
            InstPtr := literal;
          }
        } else if inst == BXC {
          B := Xor(B, C);
        } else if inst == OUT {
          Output := Output + [Low3(combo)];
        } else if inst == BDV {
          B := ShiftRight(A, combo);
        } else if inst == CDV {
          C := ShiftRight(A, combo);
        }
        left := left - 1;
      }
    }
  }
}
