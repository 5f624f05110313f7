/**
 * The decal modes of a material (grondag.canvas.material.property.MaterialDecal)
 * and the single active-decal slot that enable and disable maintain.
 *
 * The start and end actions of a decal change GL state (polygon offset, or a
 * push and a pop of the model-view matrix stack for VIEW_OFFSET); here each run
 * of an action is an event appended to a trace, so the properties are about
 * which actions run, in which order and how often.
 */
module MaterialProperty {
  import opened Options

  /** The decal indices of the material constants: three distinct slots of the lookup table. */
  const DECAL_NONE: int := 0
  const DECAL_POLYGON_OFFSET: int := 1
  const DECAL_VIEW_OFFSET: int := 2
  const DECAL_COUNT: int := 3

  /** A decal mode; its start and end actions are identified by the decal itself. */
  datatype Decal = Decal(index: int, name: string, drawPriority: int)

  const NONE: Decal := Decal(DECAL_NONE, "none", 0)
  const POLYGON_OFFSET: Decal := Decal(DECAL_POLYGON_OFFSET, "polygon_offset", 1)
  const VIEW_OFFSET: Decal := Decal(DECAL_VIEW_OFFSET, "view_offset", 2)

  /** The lookup table, filled by the static initializer at each decal's index. */
  const VALUES: seq<Decal> := [NONE, POLYGON_OFFSET, VIEW_OFFSET]

  /** One run of a decal's start or end action. */
  datatype Action = Start(decal: Decal) | End(decal: Decal)

  /**
   * The decal at an index of the table (fromIndex); None where the array
   * access of the source throws.
   */
  function FromIndex(index: int): (r: Option<Decal>)
    ensures r.Some? <==> 0 <= index < DECAL_COUNT
    ensures r.Some? ==> r.value.index == index && r.value in VALUES
  {
    if 0 <= index < |VALUES| then Some(VALUES[index]) else None
  }

  /**
   * Every decal is found at its own index, and draw priorities strictly
   * increase from NONE to VIEW_OFFSET ("higher goes first").
   */
  lemma DecalTable()
    ensures forall d :: d in VALUES ==> FromIndex(d.index) == Some(d)
    ensures NONE.drawPriority < POLYGON_OFFSET.drawPriority < VIEW_OFFSET.drawPriority
  {
    forall d | d in VALUES
      ensures FromIndex(d.index) == Some(d)
    {
      var i :| 0 <= i < |VALUES| && VALUES[i] == d;
      assert d.index == i;
    }
  }

  /** A call on the decal slot. */
  datatype Call = EnableCall(decal: Decal) | DisableCall

  /**
   * The actions enable(d) runs from a given active slot: the active decal's
   * end action, when there is one and it is VIEW_OFFSET or not d, then d's
   * start action.
   */
  function EnableEffects(active: Option<Decal>, d: Decal): (r: seq<Action>)
    ensures 1 <= |r| <= 2 && r[|r| - 1] == Start(d)
    ensures |r| == 2 <==> active.Some? && (active.value == VIEW_OFFSET || active.value != d)
    ensures |r| == 2 ==> r[0] == End(active.value)
  {
    if active.Some? && (active.value == VIEW_OFFSET || active.value != d) then [End(active.value), Start(d)]
    else [Start(d)]
  }

  /** The actions disable() runs: the active decal's end action, if there is one. */
  function DisableEffects(active: Option<Decal>): (r: seq<Action>)
    ensures active.None? <==> r == []
    ensures active.Some? ==> r == [End(active.value)]
  {
    if active.Some? then [End(active.value)] else []
  }

  function Effects(active: Option<Decal>, call: Call): seq<Action> {
    match call
    case EnableCall(d) => EnableEffects(active, d)
    case DisableCall => DisableEffects(active)
  }

  function ActiveAfter(call: Call): Option<Decal> {
    match call
    case EnableCall(d) => Some(d)
    case DisableCall => None
  }

  /** The active slot after a sequence of calls. */
  function FinalActive(active: Option<Decal>, calls: seq<Call>): Option<Decal>
    decreases |calls|
  {
    if calls == [] then active else FinalActive(ActiveAfter(calls[0]), calls[1..])
  }

  /** The trace after a sequence of calls appends their actions, in order, to `trace`. */
  function Replay(active: Option<Decal>, trace: seq<Action>, calls: seq<Call>): seq<Action>
    decreases |calls|
  {
    if calls == [] then trace
    else Replay(ActiveAfter(calls[0]), trace + Effects(active, calls[0]), calls[1..])
  }

  function Starts(trace: seq<Action>, d: Decal): nat {
    multiset(trace)[Start(d)]
  }

  function Ends(trace: seq<Action>, d: Decal): nat {
    multiset(trace)[End(d)]
  }

  /**
   * The action trace is balanced against the active slot: no decal has
   * ended more often than it started, one more time than that if it is
   * active, and VIEW_OFFSET has started exactly once more than it ended if
   * it is active, as often as it ended otherwise, so the matrix stack is
   * pushed at most once.
   */
  ghost predicate Balanced(active: Option<Decal>, trace: seq<Action>) {
    && (forall d :: Ends(trace, d) + (if active == Some(d) then 1 else 0) <= Starts(trace, d))
    && Starts(trace, VIEW_OFFSET) == Ends(trace, VIEW_OFFSET) + (if active == Some(VIEW_OFFSET) then 1 else 0)
  }

  /** One call keeps the trace balanced. */
  lemma CallKeepsBalance(active: Option<Decal>, trace: seq<Action>, call: Call)
    requires Balanced(active, trace)
    ensures Balanced(ActiveAfter(call), trace + Effects(active, call))
  {
    match call
    case EnableCall(d) => EnableKeepsBalance(active, trace, d);
    case DisableCall => DisableKeepsBalance(active, trace);
  }

  /** enable(d) keeps the trace balanced, with d active afterwards. */
  lemma EnableKeepsBalance(active: Option<Decal>, trace: seq<Action>, d: Decal)
    requires Balanced(active, trace)
    ensures Balanced(Some(d), trace + EnableEffects(active, d))
  {
    var e := EnableEffects(active, d);
    assert multiset(trace + e) == multiset(trace) + multiset(e);
  }

  /** disable() keeps the trace balanced, with no decal active afterwards. */
  lemma DisableKeepsBalance(active: Option<Decal>, trace: seq<Action>)
    requires Balanced(active, trace)
    ensures Balanced(None, trace + DisableEffects(active))
  {
    var e := DisableEffects(active);
    assert multiset(trace + e) == multiset(trace) + multiset(e);
  }

  /**
   * Any sequence of enable and disable calls from a balanced state leaves a
   * balanced state; in particular, from the initial empty slot the matrix
   * stack pushes of VIEW_OFFSET are always matched but for the active one.
   */
  lemma {:induction false} CallsKeepBalance(active: Option<Decal>, trace: seq<Action>, calls: seq<Call>)
    requires Balanced(active, trace)
    ensures Balanced(FinalActive(active, calls), Replay(active, trace, calls))
    decreases |calls|
  {
    if calls != [] {
      CallKeepsBalance(active, trace, calls[0]);
      CallsKeepBalance(ActiveAfter(calls[0]), trace + Effects(active, calls[0]), calls[1..]);
    }
  }

  /** The static decal slot and the actions run so far. */
  class DecalSlot {
    var active: Option<Decal>
    var trace: seq<Action>

    ghost predicate Valid()
      reads this
    {
      Balanced(active, trace)
    }

    /** No decal is active and no action has run. */
    constructor ()
      ensures active == None && trace == []
      ensures Valid()
    {
      active := None;
      trace := [];
    }

    /**
     * Makes d the active decal: runs the end action of the active decal
     * when it is VIEW_OFFSET or another decal, then d's start action.
     * Only the three decal constants exist, so d is one of them.
     */
    method Enable(d: Decal)
      requires Valid() && d in VALUES
      modifies this
      ensures active == Some(d)
      ensures trace == old(trace) + EnableEffects(old(active), d)
      ensures Valid()
    {
      CallKeepsBalance(active, trace, EnableCall(d));
      if active.Some? && (active.value == VIEW_OFFSET || active.value != d) {
        trace := trace + [End(active.value)];
      }
      trace := trace + [Start(d)];
      active := Some(d);
    }

    /** Ends the active decal, if any, and empties the slot. */
    method Disable()
      requires Valid()
      modifies this
      ensures active == None
      ensures trace == old(trace) + DisableEffects(old(active))
      ensures Valid()
    {
      CallKeepsBalance(active, trace, DisableCall);
      if active.Some? {
        trace := trace + [End(active.value)];
        active := None;
      }
    }
  }
}
