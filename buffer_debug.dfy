/**
 * The frame-buffer debug view selector (grondag.canvas.pipeline.BufferDebug):
 * thirteen views in declaration order, a current view that starts at NORMAL,
 * and key presses that step it cyclically forward, or backward with shift held.
 *
 * Each view's debug task draws through the frame-buffer hacks; here running
 * it appends the task to a trace.
 */
module Pipeline {
  datatype BufferDebug =
    | NORMAL | EMISSIVE | EMISSIVE_CASCADE | BLOOM_BLUR | BLOOM_BLUR_CASCADE
    | BLOOM_0 | BLOOM_1 | BLOOM_2 | BLOOM_3 | BLOOM_4 | BLOOM_5 | BLOOM_6 | BLOOM_7

  /** values(): the views in declaration order. */
  const VALUES: seq<BufferDebug> := [
    NORMAL, EMISSIVE, EMISSIVE_CASCADE, BLOOM_BLUR, BLOOM_BLUR_CASCADE,
    BLOOM_0, BLOOM_1, BLOOM_2, BLOOM_3, BLOOM_4, BLOOM_5, BLOOM_6, BLOOM_7]

  const COUNT: int := 13

  /** The position of a view in declaration order (ordinal()). */
  function Ordinal(v: BufferDebug): (k: nat)
    ensures k < COUNT && k < |VALUES| && VALUES[k] == v
  {
    match v
    case NORMAL => 0
    case EMISSIVE => 1
    case EMISSIVE_CASCADE => 2
    case BLOOM_BLUR => 3
    case BLOOM_BLUR_CASCADE => 4
    case BLOOM_0 => 5
    case BLOOM_1 => 6
    case BLOOM_2 => 7
    case BLOOM_3 => 8
    case BLOOM_4 => 9
    case BLOOM_5 => 10
    case BLOOM_6 => 11
    case BLOOM_7 => 12
  }

  /** Ordinals and the values table are inverse: every index below 13 is the ordinal of its entry. */
  lemma OrdinalOfValue(k: int)
    requires 0 <= k < COUNT
    ensures Ordinal(VALUES[k]) == k
  {
  }

  /** The debug task a view runs. */
  datatype Task = DoNothing | DebugEmissive | DebugEmissiveCascade | DebugBlur(level: int)

  function TaskOf(v: BufferDebug): (t: Task)
    ensures t == DoNothing <==> v == NORMAL
    ensures t == DebugEmissive <==> v == EMISSIVE || v == BLOOM_BLUR
    ensures t == DebugEmissiveCascade <==> v == EMISSIVE_CASCADE || v == BLOOM_BLUR_CASCADE
    ensures t.DebugBlur? <==> Ordinal(v) >= 5
    ensures t.DebugBlur? ==> t.level == Ordinal(v) - 5 && 0 <= t.level < 8
  {
    match v
    case NORMAL => DoNothing
    case EMISSIVE | BLOOM_BLUR => DebugEmissive
    case EMISSIVE_CASCADE | BLOOM_BLUR_CASCADE => DebugEmissiveCascade
    case BLOOM_0 => DebugBlur(0)
    case BLOOM_1 => DebugBlur(1)
    case BLOOM_2 => DebugBlur(2)
    case BLOOM_3 => DebugBlur(3)
    case BLOOM_4 => DebugBlur(4)
    case BLOOM_5 => DebugBlur(5)
    case BLOOM_6 => DebugBlur(6)
    case BLOOM_7 => DebugBlur(7)
  }

  /** The ordinal after a forward or a backward step, written out as a wrap-around. */
  lemma StepIndex(k: int)
    requires 0 <= k < COUNT
    ensures (k + 1) % COUNT == (k + COUNT + 1) % COUNT == if k == COUNT - 1 then 0 else k + 1
    ensures (k + COUNT - 1) % COUNT == if k == 0 then COUNT - 1 else k - 1
  {
  }

  /**
   * The view one key press selects, `values[(ordinal + count + i) % count]`
   * for a step i of +1 or -1: the next view in declaration order, BLOOM_7
   * wrapping to NORMAL, or the previous one, NORMAL wrapping to BLOOM_7.
   */
  function Step(v: BufferDebug, i: int): (r: BufferDebug)
    requires i == 1 || i == -1
    ensures i == 1 ==> Ordinal(r) == if Ordinal(v) == COUNT - 1 then 0 else Ordinal(v) + 1
    ensures i == -1 ==> Ordinal(r) == if Ordinal(v) == 0 then COUNT - 1 else Ordinal(v) - 1
  {
    StepIndex(Ordinal(v));
    OrdinalOfValue((Ordinal(v) + COUNT + i) % COUNT);
    VALUES[(Ordinal(v) + COUNT + i) % COUNT]
  }

  /** The index a key press computes is inside the values table and selects the stepped view. */
  lemma PressIndex(v: BufferDebug, i: int)
    requires i == 1 || i == -1
    ensures 0 <= (Ordinal(v) + |VALUES| + i) % |VALUES| < |VALUES|
    ensures VALUES[(Ordinal(v) + |VALUES| + i) % |VALUES|] == Step(v, i)
  {
    StepIndex(Ordinal(v));
  }

  /** Thirteen places forward is back at the same ordinal. */
  lemma FullTurn(k: int)
    requires 0 <= k < COUNT
    ensures (k + 13) % COUNT == k
  {
  }

  /** A view is determined by its ordinal. */
  lemma OrdinalInjective(v: BufferDebug, w: BufferDebug)
    requires Ordinal(v) == Ordinal(w)
    ensures v == w
  {
  }

  /** A backward step undoes a forward step, and a forward step undoes a backward one. */
  lemma StepInverse(v: BufferDebug)
    ensures Step(Step(v, 1), -1) == v
    ensures Step(Step(v, -1), 1) == v
  {
    OrdinalInjective(Step(Step(v, 1), -1), v);
    OrdinalInjective(Step(Step(v, -1), 1), v);
  }

  /** The step a key press makes: backward with a shift key held, forward otherwise. */
  function Direction(shifted: bool): int {
    if shifted then -1 else 1
  }

  /** The view after a sequence of key presses, each given by whether shift was held. */
  function Presses(v: BufferDebug, shifted: seq<bool>): BufferDebug
    decreases |shifted|
  {
    if shifted == [] then v else Presses(Step(v, Direction(shifted[0])), shifted[1..])
  }

  /** The presses from the n-th on: the n-th press's step, then the rest. */
  lemma PressesStep(v: BufferDebug, shifted: seq<bool>, n: int)
    requires 0 <= n < |shifted|
    ensures Presses(v, shifted[n..]) == Presses(Step(v, if shifted[n] then -1 else 1), shifted[n + 1..])
  {
    assert shifted[n..][1..] == shifted[n + 1..];
  }

  /** The view after n calls of advance. */
  function Advanced(v: BufferDebug, n: nat): BufferDebug
    decreases n
  {
    if n == 0 then v else Advanced(Step(v, 1), n - 1)
  }

  /** n calls of advance move the ordinal n places forward, modulo 13. */
  lemma {:induction false} AdvancedOrdinal(v: BufferDebug, n: nat)
    ensures Ordinal(Advanced(v, n)) == (Ordinal(v) + n) % COUNT
    decreases n
  {
    if n > 0 {
      var w := Step(v, 1);
      AdvancedOrdinal(w, n - 1);
      ShiftedRemainder(Ordinal(v), n);
    }
  }

  lemma ShiftedRemainder(k: int, n: int)
    requires 0 <= k < COUNT && n > 0
    ensures ((if k == COUNT - 1 then 0 else k + 1) + (n - 1)) % COUNT == (k + n) % COUNT
  {
    if k == COUNT - 1 {
      assert k + n == (n - 1) + COUNT;
    }
  }

  /** Thirteen calls of advance return to the starting view. */
  lemma AdvanceCycles(v: BufferDebug)
    ensures Advanced(v, 13) == v
  {
    AdvancedOrdinal(v, 13);
    FullTurn(Ordinal(v));
    OrdinalInjective(Advanced(v, 13), v);
  }

  /** n key presses without shift select the same view as n calls of advance. */
  lemma {:induction false} ForwardPressesAdvance(v: BufferDebug, shifted: seq<bool>)
    requires forall k :: 0 <= k < |shifted| ==> !shifted[k]
    ensures Presses(v, shifted) == Advanced(v, |shifted|)
    decreases |shifted|
  {
    if shifted != [] {
      ForwardPressesAdvance(Step(v, 1), shifted[1..]);
    }
  }

  /** The static selector: the current view and the debug tasks run so far. */
  class Selector {
    var current: BufferDebug
    var tasks: seq<Task>

    /** The class initializer: NORMAL, no task run. */
    constructor ()
      ensures current == NORMAL && tasks == []
    {
      current := NORMAL;
      tasks := [];
    }

    /** True exactly for the two emissive views, whose blur pass is skipped. */
    method ShouldSkipBlur() returns (r: bool)
      ensures r <==> current == EMISSIVE || current == EMISSIVE_CASCADE
    {
      r := current == EMISSIVE || current == EMISSIVE_CASCADE;
    }

    /** Selects the next view in declaration order, wrapping from BLOOM_7 to NORMAL. */
    method Advance()
      modifies this`current
      ensures Ordinal(current) == (Ordinal(old(current)) + 1) % COUNT
      ensures current == Advanced(old(current), 1)
    {
      var values := VALUES;
      StepIndex(Ordinal(current));
      current := values[(Ordinal(current) + 1) % |values|];
    }

    /** One pending key press: one view back with shift held, one forward without. */
    method Press(shift: bool)
      modifies this`current
      ensures current == Step(old(current), if shift then -1 else 1)
    {
      var i := if shift then -1 else 1;
      var values := VALUES;
      var count := |values|;
      PressIndex(current, i);
      current := values[(Ordinal(current) + count + i) % |values|];
    }

    /**
     * Processes the pending key presses, one step each, then runs the
     * current view's debug task.
     */
    method Render(shifted: seq<bool>)
      modifies this`current, this`tasks
      ensures current == Presses(old(current), shifted)
      ensures tasks == old(tasks) + [TaskOf(current)]
    {
      ghost var start := current;
      var n := 0;
      while n < |shifted|
        invariant 0 <= n <= |shifted|
        invariant Presses(start, shifted) == Presses(current, shifted[n..])
        modifies this`current
      {
        PressesStep(current, shifted, n);
        Press(shifted[n]);
        n := n + 1;
      }
      tasks := tasks + [TaskOf(current)];
    }
  }
}
