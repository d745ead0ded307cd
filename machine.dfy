/** The execution engine: rule resolution with wildcard fallbacks, the
    single step, the batched run, and the machine that holds tape, head,
    state, step counter and program. */
module TuringMachine {
  import opened TuringTape
  import opened TuringProgram

  /** The distinguished terminal state. */
  const Halt: string := "halt"

  /** The machine's observable state, apart from its program. */
  datatype Config = Config(tape: Tape, head: int, state: string, steps: nat)

  /** The configuration after one step and whether the machine continues. */
  datatype Outcome = Outcome(next: Config, continues: bool)

  /** The configuration after a batch of steps, whether the last step
      continued, and how many steps were called. */
  datatype BatchResult = BatchResult(last: Config, continues: bool, calls: nat)

  // ---------------------------------------------------------------- rules

  /** The rule that applies to `state` reading `sym`, trying in order the
      exact key, the state with any symbol, any state with the symbol, and
      any state with any symbol. */
  function Lookup(p: Program, state: string, sym: char): (r: Option<Rule>)
    ensures HasRule(p, (state, sym)) ==> r == Some(p[state][sym])
    ensures HasRule(p, (AnyState, Wildcard)) ==> r.Some?
  {
    if state in p && sym in p[state] then Some(p[state][sym])
    else if state in p && Wildcard in p[state] then Some(p[state][Wildcard])
    else if AnyState in p && sym in p[AnyState] then Some(p[AnyState][sym])
    else if AnyState in p && Wildcard in p[AnyState] then Some(p[AnyState][Wildcard])
    else None
  }

  /** The keys a lookup tries, most specific first. */
  function Candidates(state: string, sym: char): seq<(string, char)> {
    [(state, sym), (state, Wildcard), (AnyState, sym), (AnyState, Wildcard)]
  }

  predicate HasRule(p: Program, key: (string, char)) {
    key.0 in p && key.1 in p[key.0]
  }

  /** The head movement of an action character. The test for a move left
      at jsturing.js:68-69 repeats `>`, so `<` (like any other character)
      leaves the head where it is. */
  function Move(action: char): (d: int)
    ensures -1 <= d <= 1
  {
    if action == 'r' || action == 'R' || action == '>' then 1
    else if action == 'l' || action == 'L' || action == '>' then -1
    else 0
  }

  // ---------------------------------------------------------------- steps

  /** One step of the machine under program `p`. */
  function Transition(p: Program, c: Config): (r: Outcome)
    ensures r.continues ==> r.next.state != Halt
  {
    if c.state == Halt then Outcome(c, false)
    else
      var sym := GetTapeSymbol(c.tape.cells, c.head - c.tape.offset);
      match Lookup(p, c.state, sym)
      case Some(rule) =>
        var newState := if rule.newState == AnyState then c.state else rule.newState;
        var newSymbol := if rule.newSymbol == Wildcard then sym else rule.newSymbol;
        Outcome(Config(c.tape.Write(c.head, newSymbol), c.head + Move(rule.action), newState, c.steps + 1),
                newState != Halt)
      case None =>
        Outcome(Config(c.tape.Write(c.head, sym), c.head, Halt, c.steps + 1), false)
  }

  /** Up to `budget` steps, stopping after the first that does not continue. */
  function Batch(p: Program, c: Config, budget: nat): (r: BatchResult)
    ensures r.calls <= budget
    decreases budget
  {
    if budget == 0 then BatchResult(c, true, 0)
    else
      var o := Transition(p, c);
      if !o.continues then BatchResult(o.next, false, 1)
      else
        var b := Batch(p, o.next, budget - 1);
        BatchResult(b.last, b.continues, b.calls + 1)
  }

  /** Steps per call of Run: 25 at full speed, one otherwise. */
  function BatchSize(fullSpeed: bool): nat {
    if fullSpeed then 25 else 1
  }

  // ---------------------------------------------------------------- lemmas

  /** The lookup returns the rule under the first candidate key that has
      one, and nothing exactly when no candidate key has one. */
  lemma LookupPrecedence(p: Program, state: string, sym: char)
    ensures var keys := Candidates(state, sym);
            Lookup(p, state, sym).None? <==> forall k :: 0 <= k < 4 ==> !HasRule(p, keys[k])
    ensures var keys := Candidates(state, sym);
            Lookup(p, state, sym).Some? ==>
              exists k :: 0 <= k < 4 && HasRule(p, keys[k]) &&
                Lookup(p, state, sym).value == p[keys[k].0][keys[k].1] &&
                forall j :: 0 <= j < k ==> !HasRule(p, keys[j])
  {
    var keys := Candidates(state, sym);
    if HasRule(p, keys[0]) {
      assert Lookup(p, state, sym).value == p[keys[0].0][keys[0].1];
    } else if HasRule(p, keys[1]) {
      assert Lookup(p, state, sym).value == p[keys[1].0][keys[1].1];
    } else if HasRule(p, keys[2]) {
      assert Lookup(p, state, sym).value == p[keys[2].0][keys[2].1];
    } else if HasRule(p, keys[3]) {
      assert Lookup(p, state, sym).value == p[keys[3].0][keys[3].1];
    }
  }

  /** `r`, `R` and `>` move right, `l` and `L` move left, everything else,
      `<` included, stays. */
  lemma MoveMapping(a: char)
    ensures Move(a) == 1 <==> a in "rR>"
    ensures Move(a) == -1 <==> a in "lL"
    ensures Move('<') == 0
  {
  }

  /** A step called in the halt state changes nothing and does not continue. */
  lemma TransitionHalted(p: Program, c: Config)
    requires c.state == Halt
    ensures Transition(p, c) == Outcome(c, false)
  {
  }

  /** Every step reports that the machine continues exactly when the new
      state is not `halt`; a step from any other state counts one step. */
  lemma TransitionContinues(p: Program, c: Config)
    ensures Transition(p, c).continues <==> Transition(p, c).next.state != Halt
    ensures c.state != Halt ==> Transition(p, c).next.steps == c.steps + 1
  {
  }

  /** With no applicable rule the machine halts in place: the tape reads the
      same everywhere, the head stays and the step does not continue. */
  lemma TransitionNoRule(p: Program, c: Config)
    requires c.state != Halt
    requires Lookup(p, c.state, c.tape.Cell(c.head)).None?
    ensures var o := Transition(p, c);
            && !o.continues && o.next.state == Halt && o.next.head == c.head
            && forall q :: o.next.tape.Cell(q) == c.tape.Cell(q)
  {
  }

  /** With a rule, the cell under the head gets the rule's symbol (`*` keeps
      the symbol read), every other cell is kept, the head moves by the
      action and the state becomes the rule's (`*` keeps the state). */
  lemma TransitionApplies(p: Program, c: Config, rule: Rule)
    requires c.state != Halt
    requires Lookup(p, c.state, c.tape.Cell(c.head)) == Some(rule)
    ensures var o := Transition(p, c);
            && o.next.tape.Cell(c.head) ==
                 (if rule.newSymbol == Wildcard then c.tape.Cell(c.head) else Normalize(rule.newSymbol))
            && (forall q :: q != c.head ==> o.next.tape.Cell(q) == c.tape.Cell(q))
            && o.next.head == c.head + Move(rule.action)
            && o.next.state == (if rule.newState == AnyState then c.state else rule.newState)
  {
    var sym := c.tape.Cell(c.head);
    var written := if rule.newSymbol == Wildcard then sym else rule.newSymbol;
    var o := Transition(p, c);
    assert o.next.tape == c.tape.Write(c.head, written);
    ReadAfterWrite(c.tape, c.head, written);
    forall q | q != c.head ensures o.next.tape.Cell(q) == c.tape.Cell(q) {
      WriteFrame(c.tape, c.head, written, q);
    }
  }

  /** A batch calls at least one and at most `budget` steps; it continues
      only when all `budget` steps continued, and otherwise ends halted;
      from a running machine the step counter grows by the number of calls,
      and from a halted one the batch stops at once and changes nothing. */
  lemma {:induction false} BatchCounts(p: Program, c: Config, budget: nat)
    requires budget > 0
    ensures var b := Batch(p, c, budget);
            && 1 <= b.calls <= budget
            && (b.continues ==> b.calls == budget && b.last.state != Halt)
            && (!b.continues ==> b.last.state == Halt)
            && (c.state != Halt ==> b.last.steps == c.steps + b.calls)
            && (c.state == Halt ==> b == BatchResult(c, false, 1))
    decreases budget
  {
    var o := Transition(p, c);
    TransitionContinues(p, c);
    if o.continues && budget > 1 {
      BatchCounts(p, o.next, budget - 1);
    }
  }

  /** A batch that has stopped stays stopped however large the budget. */
  lemma {:induction false} BatchStopped(p: Program, c: Config, i: nat, n: nat)
    requires i <= n
    requires !Batch(p, c, i).continues
    ensures Batch(p, c, n) == Batch(p, c, i)
    decreases i
  {
    var o := Transition(p, c);
    if o.continues {
      BatchStopped(p, o.next, i - 1, n - 1);
    }
  }

  /** One more step of budget extends a continuing batch by one step. */
  lemma {:induction false} BatchExtend(p: Program, c: Config, i: nat)
    requires Batch(p, c, i).continues
    ensures var b := Batch(p, c, i);
            var o := Transition(p, b.last);
            Batch(p, c, i + 1) == BatchResult(o.next, o.continues, b.calls + 1)
    decreases i
  {
    var first := Transition(p, c);
    if i > 0 {
      assert first.continues;
      var rest := Batch(p, first.next, i - 1);
      assert Batch(p, c, i) == BatchResult(rest.last, rest.continues, rest.calls + 1);
      BatchExtend(p, first.next, i - 1);
      var more := Batch(p, first.next, i);
      assert Batch(p, c, i + 1) == BatchResult(more.last, more.continues, more.calls + 1);
    } else {
      assert Batch(p, c, 1) == BatchResult(first.next, first.continues, 1);
    }
  }

  /** A batch of one is a single step. */
  lemma SingleBatch(p: Program, c: Config)
    ensures Batch(p, c, 1) == BatchResult(Transition(p, c).next, Transition(p, c).continues, 1)
  {
  }

  /** A full-speed tick of the two-rule machine "in state 0 on 1 write 0,
      move right, go to state 1; in state 1 on a blank write 1, move left,
      halt", started on the tape "1": after two steps the tape reads "01",
      the head is back on cell 0, the state is halt and no tick follows. */
  lemma RunScenario(p: Program)
    requires "0" in p && '1' in p["0"]
    requires p["0"]['1'].newSymbol == '0' && p["0"]['1'].action == 'r' && p["0"]['1'].newState == "1"
    requires "1" in p && Blank in p["1"]
    requires p["1"][Blank].newSymbol == '1' && p["1"][Blank].action == 'l' && p["1"][Blank].newState == Halt
    ensures Batch(p, Config(Tape("1", 0), 0, "0", 0), BatchSize(true)) ==
              BatchResult(Config(Tape("01", 0), 0, Halt, 2), false, 2)
  {
    var start := Config(Tape("1", 0), 0, "0", 0);
    var first := Transition(p, start);
    assert start.tape.Write(0, '0') == Tape("0", 0);
    assert first == Outcome(Config(Tape("0", 0), 1, "1", 1), true);
    var second := Transition(p, first.next);
    assert first.next.tape.Cell(1) == Blank;
    assert first.next.tape.Write(1, '1') == Tape("01", 0);
    assert second == Outcome(Config(Tape("01", 0), 0, Halt, 2), false);
  }

  // ---------------------------------------------------------------- the machine

  class Machine {
    var tape: seq<char>
    var offset: int
    var head: int
    var state: string
    var steps: nat
    var program: Program

    /** Everything but the program, as a value. */
    function Snapshot(): Config
      reads this
    {
      Config(Tape(tape, offset), head, state, steps)
    }

    /** The machine as the emulator starts it, with no program compiled. */
    constructor ()
      ensures Snapshot() == Config(Tape("0110110", 0), 0, "0", 0)
      ensures program == map[]
    {
      tape := "0110110";
      offset := 0;
      head := 0;
      state := "0";
      steps := 0;
      program := map[];
    }

    /** Writes `c` at logical position `pos`. */
    method SetTapeSymbol(pos: int, c: char)
      modifies this`tape, this`offset
      ensures Tape(tape, offset) == old(Tape(tape, offset)).Write(pos, c)
    {
      var n := pos - offset;
      var sym := Normalize(c);
      if 0 <= n < |tape| {
        tape := tape[..n] + [sym] + tape[n + 1..];
      } else if n < 0 && sym != Blank {
        var pad := Repeat(Blank, -1 - n);
        tape := [sym] + pad + tape;
        offset := offset + n;
      } else if sym != Blank {
        var pad := Repeat(Blank, n - |tape|);
        tape := tape + pad + [sym];
      }
    }

    /** Runs the machine for one step; false when it is halted afterwards. */
    method Step() returns (continues: bool)
      modifies this
      ensures program == old(program)
      ensures Outcome(Snapshot(), continues) == Transition(program, old(Snapshot()))
    {
      if state == Halt {
        return false;
      }
      ghost var before := Snapshot();
      var sym := GetTapeSymbol(tape, head - offset);
      var newState, newSymbol, action;
      match Lookup(program, state, sym) {
        case Some(rule) =>
          newState := if rule.newState == AnyState then state else rule.newState;
          newSymbol := if rule.newSymbol == Wildcard then sym else rule.newSymbol;
          action := Move(rule.action);
        case None =>
          newState, newSymbol, action := Halt, sym, 0;
      }
      SetTapeSymbol(head, newSymbol);
      state := newState;
      head := head + action;
      steps := steps + 1;
      continues := newState != Halt;
      assert Snapshot() == Config(before.tape.Write(before.head, newSymbol), before.head + action, newState, before.steps + 1);
    }

    /** One scheduling tick: up to 25 steps at full speed, stopping at the
        first that does not continue, or a single step otherwise; true when
        another tick is to be scheduled. */
    method Run(fullSpeed: bool) returns (reschedule: bool)
      modifies this
      ensures program == old(program)
      ensures var b := Batch(program, old(Snapshot()), BatchSize(fullSpeed));
              Snapshot() == b.last && reschedule == b.continues
    {
      if fullSpeed {
        var cont := true;
        var i := 0;
        while cont && i < 25
          invariant 0 <= i <= 25
          invariant program == old(program)
          invariant Snapshot() == Batch(program, old(Snapshot()), i).last
          invariant cont == Batch(program, old(Snapshot()), i).continues
        {
          BatchExtend(program, old(Snapshot()), i);
          cont := Step();
          i := i + 1;
        }
        if !cont {
          BatchStopped(program, old(Snapshot()), i, 25);
        }
        reschedule := cont;
      } else {
        reschedule := Step();
      }
    }

    /** Loads the initial tape, clears offset, head, step count and state,
        and compiles the program text. */
    method Reset(initialTape: string, source: string)
      modifies this
      ensures Snapshot() == Config(Tape(initialTape, 0), 0, "0", 0)
      ensures program == Compiled(source)
    {
      tape := initialTape;
      steps := 0;
      head := 0;
      offset := 0;
      state := "0";
      Compile(source);
    }

    /** Replaces the program by the one compiled from `source`. */
    method Compile(source: string)
      modifies this`program
      ensures program == Compiled(source)
    {
      program := map[];
      var lines := SplitLines(StripCR(source));
      ghost var parsed := ParseAll(lines);
      for i := 0 to |lines|
        invariant program == CompilePrefix(parsed, i)
      {
        var tuple := ParseLine(lines[i]);
        assert tuple == parsed[i];
        CompilePrefixNext(parsed, i);
        if tuple.Some? {
          var t := tuple.value;
          // A state seen for the first time gets an empty row of rules.
          ghost var before := program;
          var row := if t.currentState in program then program[t.currentState] else map[];
          program := program[t.currentState := row[t.currentSymbol :=
                       Rule(t.newSymbol, t.action, t.newState, i)]];
          assert program == Install(before, t, i);
        }
      }
    }
  }
}
