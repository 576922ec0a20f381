/**
 * The action dispatcher: the mouse commands one cycle issues for a detected
 * target, and how a failing command cuts the sequence short.
 *
 * Offsets are measured from the centre of the field of view, which is a
 * real number (half of the width or height); gains are reals.
 */
module Dispatch {
  import opened Configuration

  /** A command sent to the mouse device. */
  datatype Command = MouseMove(dx: real, dy: real) | MouseClick | MouseFlick(dx: real, dy: real)

  function Abs(x: real): real { if x < 0.0 then -x else x }

  /** The centre of a field-of-view side. */
  function Centre(side: nat): real { side as real / 2.0 }

  /** The click tolerance: at most 4 pixels left or right and 10 pixels up or down from the centre. */
  predicate InClickWindow(tx: int, ty: int, c: Config)
  {
    Abs(tx as real - Centre(c.xFov)) <= 4.0 && Abs(ty as real - Centre(c.yFov)) <= 10.0
  }

  /** The move vector: the offset of the target from the centre, scaled by the move gain. */
  function MoveVector(tx: int, ty: int, c: Config): (real, real)
  {
    ((tx as real - Centre(c.xFov)) * c.moveSpeed, (ty as real - Centre(c.yFov)) * c.moveSpeed)
  }

  /** The flick vector: the offset of the target, two pixels further right, scaled by the flick gain. */
  function FlickVector(tx: int, ty: int, c: Config): (real, real)
  {
    (((tx as real + 2.0) - Centre(c.xFov)) * c.flickSpeed, (ty as real - Centre(c.yFov)) * c.flickSpeed)
  }

  /** The commands an action issues for a target at (tx, ty) when every command succeeds. */
  function Plan(action: Action, tx: int, ty: int, c: Config): seq<Command>
  {
    match action
    case Move =>
      var (dx, dy) := MoveVector(tx, ty, c);
      [MouseMove(dx, dy)]
    case Click =>
      if InClickWindow(tx, ty, c) then [MouseClick] else []
    case Flick =>
      var (fx, fy) := FlickVector(tx, ty, c);
      [MouseFlick(fx, fy), MouseClick, MouseFlick(-fx, -fy)]
  }

  /**
   * The commands actually issued when the plan is sent one by one and the
   * device fails the commands at the trace positions in `failing`, the first
   * command going to position `start`: everything up to and including the
   * first failing command.
   */
  function Issued(plan: seq<Command>, start: nat, failing: set<nat>): seq<Command>
  {
    if plan == [] then []
    else if start in failing then [plan[0]]
    else [plan[0]] + Issued(plan[1..], start + 1, failing)
  }

  /** No command of the plan fails. */
  predicate Succeeds(plan: seq<Command>, start: nat, failing: set<nat>)
  {
    forall k :: start <= k < start + |plan| ==> k !in failing
  }

  /** The total cursor displacement of a command sequence. */
  function Net(cmds: seq<Command>): (real, real)
  {
    if cmds == [] then (0.0, 0.0)
    else
      var (x, y) := Net(cmds[1..]);
      match cmds[0]
      case MouseMove(dx, dy) => (dx + x, dy + y)
      case MouseFlick(dx, dy) => (dx + x, dy + y)
      case MouseClick => (x, y)
  }

  // ---------------------------------------------------------------------
  // Aborting on the first failure

  /**
   * The issued commands are a prefix of the plan: all of it when nothing
   * fails, and otherwise exactly up to the first failing position.
   */
  lemma {:induction false} IssuedStopsAtFirstFailure(plan: seq<Command>, start: nat, failing: set<nat>)
    ensures var out := Issued(plan, start, failing);
      && out <= plan
      && (Succeeds(plan, start, failing) ==> out == plan)
      && (!Succeeds(plan, start, failing) ==>
            && 0 < |out|
            && start + |out| - 1 in failing
            && forall k :: start <= k < start + |out| - 1 ==> k !in failing)
  {
    if plan != [] && start !in failing {
      IssuedStopsAtFirstFailure(plan[1..], start + 1, failing);
      var rest := Issued(plan[1..], start + 1, failing);
      assert Issued(plan, start, failing) == [plan[0]] + rest;
      assert plan == [plan[0]] + plan[1..];
    }
  }

  // ---------------------------------------------------------------------
  // Properties of the three actions

  /** With a non-zero gain, Move leaves the cursor still exactly when the target is at the centre. */
  lemma MoveStillOnlyAtCentre(tx: int, ty: int, c: Config)
    requires c.moveSpeed != 0.0
    ensures Net(Plan(Move, tx, ty, c)) == (0.0, 0.0) <==> 2 * tx == c.xFov && 2 * ty == c.yFov
  {
    var plan := Plan(Move, tx, ty, c);
    assert Net(plan) == Net(plan[1..]).(0 := plan[0].dx + Net(plan[1..]).0, 1 := plan[0].dy + Net(plan[1..]).1);
  }

  /** Click issues one click inside the tolerance window and nothing outside it; in integers the window is |2tx - xFov| <= 8 and |2ty - yFov| <= 20. */
  lemma ClickWindowInPixels(tx: int, ty: int, c: Config)
    ensures Plan(Click, tx, ty, c) == [MouseClick] || Plan(Click, tx, ty, c) == []
    ensures Plan(Click, tx, ty, c) == [MouseClick] <==>
      -8 <= 2 * tx - c.xFov <= 8 && -20 <= 2 * ty - c.yFov <= 20
  {
    assert InClickWindow(tx, ty, c) <==> -8 <= 2 * tx - c.xFov <= 8 && -20 <= 2 * ty - c.yFov <= 20;
  }

  /** The click window's edges for an even field of view: all four corners 4 pixels left or right and 10 up or down click; 5 across or 11 down does not. */
  lemma ClickWindowEdges(c: Config)
    requires c.xFov % 2 == 0 && c.yFov % 2 == 0
    ensures Plan(Click, c.xFov / 2 + 4, c.yFov / 2 + 10, c) == [MouseClick]
    ensures Plan(Click, c.xFov / 2 - 4, c.yFov / 2 - 10, c) == [MouseClick]
    ensures Plan(Click, c.xFov / 2 + 4, c.yFov / 2 - 10, c) == [MouseClick]
    ensures Plan(Click, c.xFov / 2 - 4, c.yFov / 2 + 10, c) == [MouseClick]
    ensures Plan(Click, c.xFov / 2 + 5, c.yFov / 2, c) == []
    ensures Plan(Click, c.xFov / 2, c.yFov / 2 + 11, c) == []
  {
    ClickWindowInPixels(c.xFov / 2 + 4, c.yFov / 2 + 10, c);
    ClickWindowInPixels(c.xFov / 2 - 4, c.yFov / 2 - 10, c);
    ClickWindowInPixels(c.xFov / 2 + 4, c.yFov / 2 - 10, c);
    ClickWindowInPixels(c.xFov / 2 - 4, c.yFov / 2 + 10, c);
    ClickWindowInPixels(c.xFov / 2 + 5, c.yFov / 2, c);
    ClickWindowInPixels(c.xFov / 2, c.yFov / 2 + 11, c);
  }

  /** A completed flick moves out, clicks, and moves back by the exact inverse, so the net displacement is zero. */
  lemma FlickReturns(tx: int, ty: int, c: Config)
    ensures var plan := Plan(Flick, tx, ty, c);
      && |plan| == 3 && plan[1] == MouseClick
      && plan[0].MouseFlick? && plan[2].MouseFlick?
      && plan[0].dx == ((tx as real + 2.0) - c.xFov as real / 2.0) * c.flickSpeed
      && plan[0].dy == (ty as real - c.yFov as real / 2.0) * c.flickSpeed
      && Net(plan) == (0.0, 0.0)
  {
    var plan := Plan(Flick, tx, ty, c);
    var (fx, fy) := FlickVector(tx, ty, c);
    assert plan[1..][1..] == [MouseFlick(-fx, -fy)];
    assert plan[1..][1..][1..] == [];
    assert Net(plan[1..][1..]) == (-fx, -fy);
    assert Net(plan[1..]) == (-fx, -fy);
  }

  /** A flick whose click fails never sends the return flick, leaving the cursor displaced by the flick vector. */
  lemma FlickClickFailureStrands(tx: int, ty: int, c: Config, start: nat, failing: set<nat>)
    requires start !in failing && start + 1 in failing
    ensures var (fx, fy) := FlickVector(tx, ty, c);
      && Issued(Plan(Flick, tx, ty, c), start, failing) == [MouseFlick(fx, fy), MouseClick]
      && Net(Issued(Plan(Flick, tx, ty, c), start, failing)) == (fx, fy)
  {
    var plan := Plan(Flick, tx, ty, c);
    var (fx, fy) := FlickVector(tx, ty, c);
    assert Issued(plan[1..], start + 1, failing) == [MouseClick];
    var out := Issued(plan, start, failing);
    assert out == [MouseFlick(fx, fy), MouseClick];
    assert out[1..][1..] == [];
    assert Net(out[1..]) == (0.0, 0.0);
  }
}
