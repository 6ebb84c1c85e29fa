/**
 * The reader/writer lock of the concurrent model node, as a machine of atomic steps run by any
 * number of threads below 2^31. The lock word is 32 bits: the top bit says that there is a
 * writer, the rest counts readers.
 */
module ModelNodeLock {

  const SET := 0x8000_0000
  const WORD := 0x1_0000_0000

  datatype Call = GetWrite | TryWrite | GetRead | TryRead | Promote

  /** Where a thread stands. A call loads the word, then tries to swap it from the value it expects. */
  datatype Pc =
    | Out
    | Load(call: Call)
    | Swap(call: Call, expected: nat)
    | Subtract
    | Wait
    | Reading
    | Writing

  datatype State = State(word: nat, obsolete: bool, threads: seq<Pc>)

  datatype Choice = Start(call: Call) | Leave | Retire | Go

  predicate Locked(w: nat) {
    w >= SET
  }

  /** v & lockMask */
  function Readers(w: nat): (r: nat)
    ensures r < SET
  {
    w % SET
  }

  /** The value a call swaps in: the writer bit set, or one more reader under the mask. */
  function Wanted(call: Call, expected: nat): nat {
    if call == GetRead || call == TryRead then (expected + 1) % SET else SET + expected % SET
  }

  /** Where a call goes when it returns false: a failed promotion is still a reader. */
  function Refused(call: Call): Pc {
    if call == Promote then Reading else Out
  }

  function Granted(call: Call): Pc {
    match call
    case GetRead => Reading
    case TryRead => Reading
    case Promote => Subtract
    case _ => Wait
  }

  predicate Retries(call: Call) {
    call != TryWrite && call != TryRead
  }

  predicate Enabled(s: State, t: nat, c: Choice) {
    t < |s.threads| &&
    match s.threads[t]
    case Out => c.Start? && c.call != Promote
    case Reading => c == Leave || c == Start(Promote)
    case Writing => c == Leave || c == Retire
    case _ => c == Go
  }

  function Apply(s: State, t: nat, c: Choice): State
    requires Enabled(s, t, c)
  {
    match s.threads[t]
    case Out => s.(threads := s.threads[t := Load(c.call)])
    case Reading =>
      if c == Leave then State((s.word + WORD - 1) % WORD, s.obsolete, s.threads[t := Out])
      else s.(threads := s.threads[t := Load(Promote)])
    case Writing =>
      if c == Leave then State(0, s.obsolete, s.threads[t := Out]) else s.(obsolete := true)
    case Load(call) =>
      s.(threads := s.threads[t := if Locked(s.word) || s.obsolete then Refused(call) else Swap(call, Readers(s.word))])
    case Swap(call, expected) =>
      if s.word == expected then
        State(Wanted(call, expected), s.obsolete, s.threads[t := Granted(call)])
      else if !Retries(call) || Locked(s.word) || s.obsolete then
        s.(threads := s.threads[t := Refused(call)])
      else
        s.(threads := s.threads[t := Swap(call, Readers(s.word))])
    case Subtract => State((s.word + WORD - 1) % WORD, s.obsolete, s.threads[t := Wait])
    case Wait => if Readers(s.word) == 0 then s.(threads := s.threads[t := Writing]) else s
  }

  predicate Init(s: State) {
    && s.word == 0
    && |s.threads| < SET
    && forall t :: 0 <= t < |s.threads| ==> s.threads[t] == Out
  }

  // ----- the invariant -----

  /** The thread is counted in the low bits. */
  predicate Counted(pc: Pc) {
    || pc.Reading?
    || pc.Subtract?
    || (pc.Load? && pc.call == Promote)
    || (pc.Swap? && pc.call == Promote)
  }

  /** The thread set the top bit. */
  predicate Owner(pc: Pc) {
    pc.Subtract? || pc.Wait? || pc.Writing?
  }

  function Count(threads: seq<Pc>): (r: nat)
    ensures r <= |threads|
  {
    if threads == [] then 0 else (if Counted(threads[0]) then 1 else 0) + Count(threads[1..])
  }

  predicate HasOwner(s: State) {
    exists t :: 0 <= t < |s.threads| && Owner(s.threads[t])
  }

  predicate OneOwner(s: State) {
    forall t, u :: 0 <= t < |s.threads| && 0 <= u < |s.threads| && Owner(s.threads[t]) && Owner(s.threads[u]) ==> t == u
  }

  ghost predicate Inv(s: State) {
    && |s.threads| < SET
    && s.word == (if HasOwner(s) then SET else 0) + Count(s.threads)
    && OneOwner(s)
    && (forall t :: 0 <= t < |s.threads| && s.threads[t].Writing? ==> Count(s.threads) == 0)
    && (forall t :: 0 <= t < |s.threads| && s.threads[t].Swap? ==> s.threads[t].expected < SET)
  }

  lemma {:induction false} CountUpdate(threads: seq<Pc>, t: nat, pc: Pc)
    requires t < |threads|
    ensures Count(threads[t := pc]) + (if Counted(threads[t]) then 1 else 0) == Count(threads) + if Counted(pc) then 1 else 0
  {
    if t > 0 {
      assert threads[t := pc][1..] == threads[1..][t - 1 := pc];
      CountUpdate(threads[1..], t - 1, pc);
    } else {
      assert threads[0 := pc][1..] == threads[1..];
    }
  }

  lemma {:induction false} CountZero(threads: seq<Pc>)
    ensures Count(threads) == 0 <==> forall t :: 0 <= t < |threads| ==> !Counted(threads[t])
  {
    if threads != [] {
      CountZero(threads[1..]);
      assert forall t :: 1 <= t < |threads| ==> threads[t] == threads[1..][t - 1];
      if forall t :: 0 <= t < |threads| ==> !Counted(threads[t]) {
        assert forall t :: 0 <= t < |threads| - 1 ==> !Counted(threads[1..][t]);
      }
    }
  }

  lemma {:induction false} InitInv(s: State)
    requires Init(s)
    ensures Inv(s)
  {
    CountZero(s.threads);
  }

  /** Whether there is an owner after one thread moved. */
  lemma {:induction false} OwnerMoves(s: State, t: nat, pc: Pc, s': State)
    requires OneOwner(s) && t < |s.threads| && s'.threads == s.threads[t := pc]
    ensures HasOwner(s') <==> Owner(pc) || (HasOwner(s) && !Owner(s.threads[t]))
    ensures Owner(pc) ==> (Owner(s.threads[t]) || !HasOwner(s) <==> OneOwner(s'))
    ensures !Owner(pc) ==> OneOwner(s')
  {
    if Owner(pc) {
      assert Owner(s'.threads[t]);
    }
    if HasOwner(s) {
      var u :| 0 <= u < |s.threads| && Owner(s.threads[u]);
      if u != t {
        assert Owner(s'.threads[u]);
      }
    }
  }

  lemma {:induction false} LessOne(word: nat)
    requires 0 < word < WORD
    ensures (word + WORD - 1) % WORD == word - 1
  {
  }

  lemma {:induction false} SwapWord(s: State, t: nat, c: Choice, s': State)
    requires Inv(s) && Enabled(s, t, c) && s' == Apply(s, t, c) && |s'.threads| == |s.threads| && s.threads[t].Swap?
    requires Count(s'.threads) + (if Counted(s.threads[t]) then 1 else 0) == Count(s.threads) + if Counted(s'.threads[t]) then 1 else 0
    requires HasOwner(s') <==> Owner(s'.threads[t]) || (HasOwner(s) && !Owner(s.threads[t]))
    ensures s'.word == (if HasOwner(s') then SET else 0) + Count(s'.threads)
  {
    hide Count, HasOwner, OneOwner;
  }

  lemma {:induction false} WordStep(s: State, t: nat, c: Choice, s': State)
    requires Inv(s) && Enabled(s, t, c) && s' == Apply(s, t, c) && |s'.threads| == |s.threads|
    requires Count(s'.threads) + (if Counted(s.threads[t]) then 1 else 0) == Count(s.threads) + if Counted(s'.threads[t]) then 1 else 0
    requires HasOwner(s') <==> Owner(s'.threads[t]) || (HasOwner(s) && !Owner(s.threads[t]))
    requires Count(s.threads) <= |s.threads| && (Owner(s.threads[t]) ==> HasOwner(s))
    requires Counted(s.threads[t]) ==> Count(s.threads) > 0
    ensures s'.word == (if HasOwner(s') then SET else 0) + Count(s'.threads)
  {
    hide Count, HasOwner, OneOwner;
    if s.threads[t].Reading? || s.threads[t].Subtract? {
      LessOne(s.word);
    } else if s.threads[t].Swap? {
      SwapWord(s, t, c, s');
    }
  }

  lemma {:induction false} OwnersStep(s: State, t: nat, c: Choice, s': State)
    requires Inv(s) && Enabled(s, t, c) && s' == Apply(s, t, c)
    requires Count(s.threads) <= |s.threads| && (Owner(s.threads[t]) ==> HasOwner(s))
    ensures Owner(s'.threads[t]) ==> Owner(s.threads[t]) || !HasOwner(s)
    ensures s'.threads[t].Swap? ==> s'.threads[t].expected < SET
    ensures s'.threads[t].Writing? ==> Count(s.threads) == 0
    ensures Counted(s'.threads[t]) && !Counted(s.threads[t]) ==> !HasOwner(s)
  {
    hide Count, HasOwner, OneOwner;
  }

  /** Every step of every thread keeps the word equal to the writer bit plus the number of readers. */
  lemma {:induction false} InvStep(s: State, t: nat, c: Choice)
    requires Inv(s) && Enabled(s, t, c)
    ensures Inv(Apply(s, t, c))
  {
    var s' := Apply(s, t, c);
    assert s'.threads == s.threads[t := s'.threads[t]];
    if Owner(s.threads[t]) {
      assert HasOwner(s);
    }
    hide Count, Apply, Enabled;
    CountZero(s.threads);
    CountBound(s.threads);
    CountUpdate(s.threads, t, s'.threads[t]);
    OwnerMoves(s, t, s'.threads[t], s');
    WordStep(s, t, c, s');
    OwnersStep(s, t, c, s');
    forall u | 0 <= u < |s'.threads| && s'.threads[u].Writing?
      ensures Count(s'.threads) == 0
    {
      if u != t {
        assert Owner(s.threads[u]) && HasOwner(s);
      }
    }
  }

  lemma {:induction false} CountBound(threads: seq<Pc>)
    ensures Count(threads) <= |threads|
  {
  }

  // ----- runs -----

  datatype Step = Step(t: nat, c: Choice)

  ghost predicate IsStep(s: State, step: Step, s': State) {
    Enabled(s, step.t, step.c) && s' == Apply(s, step.t, step.c)
  }

  ghost predicate Run(states: seq<State>, steps: seq<Step>) {
    && |states| == |steps| + 1
    && Init(states[0])
    && forall i :: 0 <= i < |steps| ==> IsStep(states[i], steps[i], states[i + 1])
  }

  lemma {:induction false} InvOnRun(states: seq<State>, steps: seq<Step>, i: nat)
    requires Run(states, steps) && i < |states|
    ensures Inv(states[i])
  {
    hide Inv, Apply, Enabled;
    if i == 0 {
      InitInv(states[0]);
    } else {
      InvOnRun(states, steps, i - 1);
      assert IsStep(states[i - 1], steps[i - 1], states[i]);
      InvStep(states[i - 1], steps[i - 1].t, steps[i - 1].c);
    }
  }

  /** A writer past its wait excludes readers, other writers and writers that wait, and the word is the bare writer bit. */
  lemma {:induction false} WriterExcludes(states: seq<State>, steps: seq<Step>, i: nat, t: nat, u: nat)
    requires Run(states, steps) && i < |states| && t < |states[i].threads| && u < |states[i].threads| && t != u
    requires states[i].threads[t].Writing?
    ensures states[i].word == SET
    ensures !Counted(states[i].threads[u]) && !Owner(states[i].threads[u])
  {
    InvOnRun(states, steps, i);
    var s := states[i];
    assert Owner(s.threads[t]) && HasOwner(s);
    CountZero(s.threads);
  }

  /** A waiting writer goes on exactly when the last reader has left. */
  lemma {:induction false} WaitEnds(states: seq<State>, steps: seq<Step>, i: nat, t: nat)
    requires Run(states, steps) && i < |states| && t < |states[i].threads| && states[i].threads[t].Wait?
    ensures Apply(states[i], t, Go).threads[t].Writing? <==>
      forall u :: 0 <= u < |states[i].threads| ==> !Counted(states[i].threads[u])
  {
    InvOnRun(states, steps, i);
    var s := states[i];
    assert Owner(s.threads[t]) && HasOwner(s);
    CountZero(s.threads);
    CountBound(s.threads);
    hide Count;
    assert s.word == SET + Count(s.threads);
    assert Readers(s.word) == Count(s.threads);
  }

  lemma {:induction false} OwnerStep(s: State, step: Step, s': State, t: nat)
    requires Inv(s) && IsStep(s, step, s') && step.t != t && t < |s.threads| && Owner(s.threads[t])
    ensures t < |s'.threads| && s'.threads[t] == s.threads[t]
    ensures Count(s'.threads) <= Count(s.threads)
    ensures forall u :: 0 <= u < |s.threads| && u != t ==> !Owner(s'.threads[u])
    ensures forall u :: 0 <= u < |s.threads| && u != t && Counted(s'.threads[u]) ==> Counted(s.threads[u])
  {
    hide Count;
    assert HasOwner(s);
    if s'.threads != s.threads {
      CountUpdate(s.threads, step.t, s'.threads[step.t]);
    }
  }

  lemma {:induction false} OthersSame(s: State, step: Step, s': State)
    requires IsStep(s, step, s')
    ensures |s'.threads| == |s.threads| && forall u :: 0 <= u < |s.threads| && u != step.t ==> s'.threads[u] == s.threads[u]
  {
  }

  /** Thread t makes no step between i and j other than waiting, so what it set stays set. */
  ghost predicate Keeps(states: seq<State>, i: nat, j: nat, t: nat) {
    j < |states| && forall m :: i <= m <= j ==> t < |states[m].threads| && Owner(states[m].threads[t])
  }

  /**
   * As long as one thread owns the writer bit nobody becomes a writer or a reader: every other
   * promotion and every other request is refused.
   */
  lemma {:induction false} OwnerKeepsOthersOut(states: seq<State>, steps: seq<Step>, i: nat, j: nat, t: nat, u: nat)
    requires Run(states, steps) && i <= j && Keeps(states, i, j, t) && u != t && u < |states[i].threads|
    ensures |states[j].threads| == |states[i].threads|
    ensures !Owner(states[j].threads[u])
    ensures Counted(states[j].threads[u]) ==> Counted(states[i].threads[u])
    decreases j - i
  {
    hide Inv, Apply, Enabled;
    if i == j {
      InvOnRun(states, steps, i);
      OnlyOne(states[i], t, u);
    } else {
      assert Keeps(states, i, j - 1, t);
      OwnerKeepsOthersOut(states, steps, i, j - 1, t, u);
      InvOnRun(states, steps, j - 1);
      assert IsStep(states[j - 1], steps[j - 1], states[j]);
      OthersSame(states[j - 1], steps[j - 1], states[j]);
      if steps[j - 1].t != t {
        OwnerStep(states[j - 1], steps[j - 1], states[j], t);
      }
    }
  }

  lemma {:induction false} OnlyOne(s: State, t: nat, u: nat)
    requires Inv(s) && t < |s.threads| && u < |s.threads| && t != u && Owner(s.threads[t])
    ensures !Owner(s.threads[u])
  {
  }

  /** Of all the readers that promote at once at most one is granted, and one that is refused is still a reader. */
  lemma {:induction false} OnePromotion(states: seq<State>, steps: seq<Step>, i: nat, t: nat, u: nat)
    requires Run(states, steps) && i < |states| && t < |states[i].threads| && u < |states[i].threads| && t != u
    requires Owner(states[i].threads[t])
    requires states[i].threads[u].Swap? || states[i].threads[u].Load?
    ensures var s' := Apply(states[i], u, Go);
      s'.word == states[i].word && s'.threads[u] == Refused(states[i].threads[u].call)
      && Counted(s'.threads[u]) == Counted(states[i].threads[u])
  {
    InvOnRun(states, steps, i);
    assert HasOwner(states[i]);
  }

  // ----- what each call comes to -----

  /** The writer bit is set exactly when some thread owns it, and the low bits are the readers. */
  lemma {:induction false} WordMeans(s: State)
    requires Inv(s)
    ensures Locked(s.word) <==> HasOwner(s)
    ensures Readers(s.word) == Count(s.threads) && s.word < WORD
  {
    CountBound(s.threads);
    hide Count, HasOwner, OneOwner;
  }

  /**
   * A call that nobody disturbs between its load and its swap is refused at once, with the word as it
   * was, exactly when a thread owns the writer bit or the node is retired. Otherwise it gets what it
   * asked for: a reader is counted, or a writer sets the bit and goes on to wait for the readers.
   */
  lemma {:induction false} CallOutcome(s: State, t: nat, call: Call)
    requires Inv(s) && t < |s.threads| && s.threads[t] == Load(call)
    ensures var loaded := Apply(s, t, Go);
      if HasOwner(s) || s.obsolete then
        loaded == s.(threads := s.threads[t := if call == Promote then Reading else Out])
      else
        && Enabled(loaded, t, Go)
        && Apply(loaded, t, Go) == (
             if call == GetRead || call == TryRead then s.(word := s.word + 1, threads := s.threads[t := Reading])
             else if call == Promote then s.(word := s.word + SET, threads := s.threads[t := Subtract])
             else s.(word := s.word + SET, threads := s.threads[t := Wait]))
  {
    WordMeans(s);
    CountUpdate(s.threads, t, Reading);
    CountBound(s.threads[t := Reading]);
    hide Count, HasOwner, OneOwner;
    if !Locked(s.word) && !s.obsolete {
      assert s.threads[t := Swap(call, s.word)][t := Granted(call)] == s.threads[t := Granted(call)];
    }
  }

  /**
   * A swap that finds another word than it loaded: a Try call gives up, any other call is refused
   * when there is a writer or the node is retired by now, and else tries again from the new count.
   */
  lemma {:induction false} SwapOutcome(s: State, t: nat)
    requires Inv(s) && t < |s.threads| && s.threads[t].Swap? && s.word != s.threads[t].expected
    ensures var call := s.threads[t].call;
      var giveUp := call == TryWrite || call == TryRead || HasOwner(s) || s.obsolete;
      Apply(s, t, Go) == s.(threads := s.threads[t :=
        if giveUp then (if call == Promote then Reading else Out) else Swap(call, Count(s.threads))])
  {
    WordMeans(s);
    hide Count, HasOwner, OneOwner;
  }

  /** Leaving gives back what was taken: a reader is no longer counted, a writer leaves a free word. */
  lemma {:induction false} LeaveOutcome(s: State, t: nat)
    requires Inv(s) && t < |s.threads| && (s.threads[t].Reading? || s.threads[t].Writing?)
    ensures var s' := Apply(s, t, Leave);
      && s'.threads == s.threads[t := Out]
      && s'.obsolete == s.obsolete
      && s'.word == if s.threads[t].Writing? then 0 else s.word - 1
  {
    CountBound(s.threads);
    CountZero(s.threads);
    if s.threads[t].Reading? {
      assert Counted(s.threads[t]);
      hide Count;
      LessOne(s.word);
    }
  }

  // ----- retirement -----

  /** A node is retired by a writer that holds it, and by nothing else. */
  lemma {:induction false} RetireOutcome(s: State, step: Step, s': State)
    requires IsStep(s, step, s')
    ensures s'.obsolete <==> s.obsolete || (s.threads[step.t].Writing? && step.c == Retire)
  {
  }

  lemma {:induction false} RetiredForGood(states: seq<State>, steps: seq<Step>, i: nat, j: nat)
    requires Run(states, steps) && i <= j < |states| && states[i].obsolete
    ensures states[j].obsolete
    decreases j - i
  {
    if i < j {
      RetiredForGood(states, steps, i, j - 1);
      assert IsStep(states[j - 1], steps[j - 1], states[j]);
      RetireOutcome(states[j - 1], steps[j - 1], states[j]);
    }
  }

  /** A thread outside a retired node, or at the start of a call on it. */
  predicate KeptOut(pc: Pc) {
    pc.Out? || (pc.Load? && pc.call != Promote)
  }

  lemma {:induction false} KeptOutStep(s: State, step: Step, s': State, t: nat)
    requires IsStep(s, step, s') && s.obsolete && t < |s.threads| && KeptOut(s.threads[t])
    ensures t < |s'.threads| && KeptOut(s'.threads[t])
  {
  }

  /** Whoever is outside when the node is retired never gets a lock on it again. */
  lemma {:induction false} RetiredKeepsOut(states: seq<State>, steps: seq<Step>, i: nat, j: nat, t: nat)
    requires Run(states, steps) && i <= j < |states| && states[i].obsolete
    requires t < |states[i].threads| && states[i].threads[t] == Out
    ensures t < |states[j].threads| && KeptOut(states[j].threads[t])
    ensures var pc := states[j].threads[t]; !pc.Reading? && !pc.Subtract? && !pc.Wait? && !pc.Writing?
    decreases j - i
  {
    if i < j {
      RetiredKeepsOut(states, steps, i, j - 1, t);
      RetiredForGood(states, steps, i, j - 1);
      assert IsStep(states[j - 1], steps[j - 1], states[j]);
      hide Apply, Enabled;
      KeptOutStep(states[j - 1], steps[j - 1], states[j], t);
    }
  }
}
