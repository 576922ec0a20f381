/**
 * The targeting engine: an enable flag, a configuration fixed at creation,
 * and exclusive handles on a screen-capture source and a mouse device.
 *
 * The two collaborators are outside the model; they appear here as small
 * classes that record the calls made to them. What the outside world decides
 * (which frame arrives, which mouse command fails) is given to them when they
 * are opened.
 */
module Engine {
  import opened Detector
  import opened Configuration
  import opened Dispatch

  /** A call made on the capture source. */
  datatype CaptureCall = FrameRequest | Resumed | Paused | Stopped

  /** What the next frame request returns: the next scripted answer, or nothing once the script is used up. */
  function NextFrame(feed: seq<Option<Frame>>): Option<Frame>
  {
    if feed == [] then None else feed[0]
  }

  /** The script left after one frame request. */
  function RestOfFeed(feed: seq<Option<Frame>>): seq<Option<Frame>>
  {
    if feed == [] then [] else feed[1..]
  }

  /**
   * The screen-capture source over the region (x, y, width, height). Each
   * entry of `feed` is the answer to one frame request: a frame, or nothing
   * when the wait times out.
   */
  class Capture {
    const x: int
    const y: int
    const width: nat
    const height: nat
    var calls: seq<CaptureCall>
    var feed: seq<Option<Frame>>

    constructor WithFov(x: int, y: int, width: nat, height: nat, feed: seq<Option<Frame>>)
      ensures this.x == x && this.y == y && this.width == width && this.height == height
      ensures calls == [] && this.feed == feed
    {
      this.x, this.y, this.width, this.height := x, y, width, height;
      calls, this.feed := [], feed;
    }

    /** Waits a bounded time for a frame. */
    method GetFrameBlocking() returns (frame: Option<Frame>)
      modifies this
      ensures frame == NextFrame(old(feed)) && feed == RestOfFeed(old(feed))
      ensures calls == old(calls) + [FrameRequest]
    {
      frame := NextFrame(feed);
      feed := RestOfFeed(feed);
      calls := calls + [FrameRequest];
    }

    method Resume()
      modifies this
      ensures calls == old(calls) + [Resumed] && feed == old(feed)
    {
      calls := calls + [Resumed];
    }

    method Pause()
      modifies this
      ensures calls == old(calls) + [Paused] && feed == old(feed)
    {
      calls := calls + [Paused];
    }

    method Stop()
      modifies this
      ensures calls == old(calls) + [Stopped] && feed == old(feed)
    {
      calls := calls + [Stopped];
    }
  }

  /**
   * The mouse device. `sent` is every command the engine has sent, in order;
   * the device reports an error for the commands whose position in `sent`
   * is in `failing`.
   */
  class Mouse {
    const failing: set<nat>
    var sent: seq<Command>
    var closes: nat

    constructor Open(failing: set<nat>)
      ensures this.failing == failing && sent == [] && closes == 0
    {
      this.failing := failing;
      sent, closes := [], 0;
    }

    /** Sends one move, click or flick command; false when the device reports an error. */
    method Send(c: Command) returns (ok: bool)
      modifies this
      ensures sent == old(sent) + [c] && closes == old(closes)
      ensures ok <==> |old(sent)| !in failing
    {
      ok := |sent| !in failing;
      sent := sent + [c];
    }

    method Close()
      modifies this
      ensures closes == old(closes) + 1 && sent == old(sent)
    {
      closes := closes + 1;
    }
  }

  /**
   * The mouse commands one enabled cycle plans for the frame it received:
   * none without a frame or without a target, otherwise the action's plan
   * for the detected target.
   */
  function CycleCommands(frame: Option<Frame>, action: Action, c: Config): seq<Command>
  {
    match frame
    case None => []
    case Some(f) =>
      match Centroid(f, c.lowerHsv, c.upperHsv)
      case None => []
      case Some((tx, ty)) => Plan(action, tx, ty, c)
  }

  /** A cycle that sends nothing whatever the action: no frame arrived, or the frame holds no target. */
  predicate QuietCycle(frame: Option<Frame>, c: Config)
  {
    frame.None? || Centroid(frame.value, c.lowerHsv, c.upperHsv).None?
  }

  class ColorantEngine {
    const config: Config
    const capture: Capture
    const mouse: Mouse
    var toggled: bool

    constructor Assemble(config: Config, capture: Capture, mouse: Mouse)
      ensures this.config == config && this.capture == capture && this.mouse == mouse
      ensures !toggled
    {
      this.config, this.capture, this.mouse := config, capture, mouse;
      toggled := false;
    }

    /**
     * Creates an engine: resolves the gains, opens the capture over the
     * configured region and then the mouse. Either opening may fail, which
     * fails the creation; the environment decides this through `captureOpens`
     * and `mouseOpens`.
     */
    static method New(cfg: Config, derived: Speeds, captureOpens: bool, mouseOpens: bool,
                      feed: seq<Option<Frame>>, failing: set<nat>)
      returns (engine: ColorantEngine?)
      ensures engine == null <==> !captureOpens || !mouseOpens
      ensures engine != null ==>
        && fresh(engine) && fresh(engine.capture) && fresh(engine.mouse)
        && engine.config == ResolveSpeeds(cfg, derived)
        && !engine.IsEnabled()
        && engine.capture.x == cfg.x && engine.capture.y == cfg.y
        && engine.capture.width == cfg.xFov && engine.capture.height == cfg.yFov
        && engine.capture.calls == [] && engine.capture.feed == feed
        && engine.mouse.sent == [] && engine.mouse.closes == 0 && engine.mouse.failing == failing
    {
      var config := ResolveSpeeds(cfg, derived);
      if !captureOpens {
        return null;
      }
      var capture := new Capture.WithFov(config.x, config.y, config.xFov, config.yFov, feed);
      if !mouseOpens {
        return null;
      }
      var mouse := new Mouse.Open(failing);
      engine := new ColorantEngine.Assemble(config, capture, mouse);
    }

    function IsEnabled(): bool
      reads this
    {
      toggled
    }

    /** Flips the flag, resumes the capture when now enabled and pauses it otherwise, and returns the new state. */
    method Toggle() returns (enabled: bool)
      modifies this, capture
      ensures enabled == IsEnabled() == !old(IsEnabled())
      ensures capture.calls == old(capture.calls) + [if enabled then Resumed else Paused]
      ensures capture.feed == old(capture.feed)
    {
      toggled := !toggled;
      if toggled {
        capture.Resume();
      } else {
        capture.Pause();
      }
      enabled := toggled;
    }

    /**
     * One cycle. Disabled: nothing is requested and nothing is sent.
     * Enabled: one frame is requested; the planned commands for it are sent
     * in order until one fails; the cycle succeeds when none failed.
     */
    method ProcessAction(action: Action) returns (ok: bool)
      modifies capture, mouse
      ensures !old(IsEnabled()) ==> ok && unchanged(capture) && unchanged(mouse)
      ensures old(IsEnabled()) ==>
        && capture.calls == old(capture.calls) + [FrameRequest]
        && capture.feed == RestOfFeed(old(capture.feed))
      ensures old(IsEnabled()) ==>
        var plan := CycleCommands(NextFrame(old(capture.feed)), action, config);
        var start := |old(mouse.sent)|;
        && mouse.sent == old(mouse.sent) + Issued(plan, start, mouse.failing)
        && mouse.closes == old(mouse.closes)
        && (ok <==> Succeeds(plan, start, mouse.failing))
      ensures old(IsEnabled()) && QuietCycle(NextFrame(old(capture.feed)), config) ==>
        ok && mouse.sent == old(mouse.sent)
    {
      if !toggled {
        return true;
      }
      var frame := capture.GetFrameBlocking();
      if frame.None? {
        return true;
      }
      var target := FindTargetHsv(frame.value, config.lowerHsv, config.upperHsv);
      if target.None? {
        return true;
      }
      var (tx, ty) := target.value;
      ok := Act(action, tx, ty);
    }

    /**
     * Sends the commands of one action for a target at (tx, ty): a move by
     * the scaled offset; a click when the target is inside the click window;
     * or a flick, a click and the inverse flick. The first failing command
     * ends the sequence.
     */
    method Act(action: Action, tx: int, ty: int) returns (ok: bool)
      modifies mouse
      ensures var plan := Plan(action, tx, ty, config);
        var start := |old(mouse.sent)|;
        && mouse.sent == old(mouse.sent) + Issued(plan, start, mouse.failing)
        && mouse.closes == old(mouse.closes)
        && (ok <==> Succeeds(plan, start, mouse.failing))
    {
      match action
      case Move =>
        var (dx, dy) := MoveVector(tx, ty, config);
        ok := mouse.Send(MouseMove(dx, dy));
        assert [MouseMove(dx, dy)][1..] == [];
      case Click =>
        if InClickWindow(tx, ty, config) {
          ok := mouse.Send(MouseClick);
          assert [MouseClick][1..] == [];
        } else {
          ok := true;
        }
      case Flick =>
        var (flickX, flickY) := FlickVector(tx, ty, config);
        ghost var plan := Plan(Flick, tx, ty, config);
        ghost var start := |mouse.sent|;
        assert plan[1..][1..] == [MouseFlick(-flickX, -flickY)];
        ok := mouse.Send(MouseFlick(flickX, flickY));
        if !ok {
          assert !Succeeds(plan, start, mouse.failing) by { assert start in mouse.failing; }
          return;
        }
        ok := mouse.Send(MouseClick);
        if !ok {
          assert !Succeeds(plan, start, mouse.failing) by { assert start + 1 in mouse.failing; }
          return;
        }
        ok := mouse.Send(MouseFlick(-flickX, -flickY));
        assert Issued(plan[1..][1..], start + 2, mouse.failing) == [MouseFlick(-flickX, -flickY)];
    }

    /** Stops the capture and closes the mouse. */
    method Close()
      modifies capture, mouse
      ensures capture.calls == old(capture.calls) + [Stopped] && capture.feed == old(capture.feed)
      ensures mouse.closes == old(mouse.closes) + 1 && mouse.sent == old(mouse.sent)
    {
      capture.Stop();
      mouse.Close();
    }
  }

  /** Two toggles restore the flag, after one resume and one pause in the order the flips demand. */
  method ToggleTwice(engine: ColorantEngine)
    modifies engine, engine.capture
    ensures engine.IsEnabled() == old(engine.IsEnabled())
    ensures engine.capture.calls ==
      old(engine.capture.calls) + (if old(engine.IsEnabled()) then [Paused, Resumed] else [Resumed, Paused])
  {
    var first := engine.Toggle();
    var second := engine.Toggle();
  }
}
