/**
 * BotService.kt: the decision layer that turns each captured frame into at
 * most one platform action, and the run flag that keeps the frame loop going.
 * Taps (`controller.tap`) and reset requests (`adDodgeManager.triggerReset`)
 * are appended to an action log instead of being sent to the platform.
 */
module Service {
  import opened Optional
  import opened Pixels
  import Vision

  /** `BotService.State` */
  datatype State = StartScreen | Playing | GameOver

  /** A platform effect the service asks for. */
  datatype Action = Tap(x: int, y: int) | TriggerReset

  // ---------------------------------------------------------------------------
  // detectGameState

  /** The `when` of `detectGameState`: a label of `getCurrentState` to a game state. */
  function StateOfLabel(name: string): State {
    match name
    case "start" => StartScreen
    case "end" => GameOver
    case "win" => GameOver
    case _ => Playing
  }

  /** The game state the service reads off a frame. */
  function FrameState(f: Frame): State
    requires f.Valid()
  {
    StateOfLabel(Vision.StripFrom(f, f.width / 2, Vision.ScanCut(f.height)).name)
  }

  /** The strip rows `getCurrentState` visits: every tenth row from the 70% line down. */
  predicate StripRow(f: Frame, y: int) {
    Vision.OnLattice(y, Vision.ScanCut(f.height), f.height, 10)
  }

  /** The first strip row carrying a button colour carries one labelled `name`. */
  ghost predicate FirstButtonIs(f: Frame, name: string)
    requires f.Valid()
  {
    exists y :: StripRow(f, y)
      && Vision.ButtonLabel(Masked(f.Pixel(f.width / 2, y))) == Some(name)
      && forall y' :: StripRow(f, y') && y' < y ==> !Vision.ButtonAt(f, f.width / 2, y')
  }

  /** A first button on the strip is the one the strip scan reports. */
  lemma FirstButtonReported(f: Frame, name: string)
    requires f.Valid() && FirstButtonIs(f, name)
    ensures Vision.StripFrom(f, f.width / 2, Vision.ScanCut(f.height)).name == name
  {
    var x, cut := f.width / 2, Vision.ScanCut(f.height);
    var d := Vision.StripFrom(f, x, cut);
    var y :| StripRow(f, y)
      && Vision.ButtonLabel(Masked(f.Pixel(x, y))) == Some(name)
      && forall y' :: StripRow(f, y') && y' < y ==> !Vision.ButtonAt(f, x, y');
    assert Vision.ButtonAt(f, x, y);
    Vision.StripFromMiss(f, x, cut);
    assert d.name != Vision.InGame;
    Vision.StripFromShape(f, x, cut);
    Vision.StripFromFirst(f, x, cut);
    assert StripRow(f, d.at.y) && Vision.ButtonAt(f, x, d.at.y);
    assert !(y < d.at.y);
    assert !(d.at.y < y);
  }

  /**
   * The service sees the start screen exactly when the first button colour on
   * the strip is the start button's, game over exactly when it is the win or
   * an end button's, and plays on exactly when no strip row shows a button.
   */
  lemma FrameStateSpec(f: Frame)
    requires f.Valid()
    ensures FrameState(f) == StartScreen <==> FirstButtonIs(f, "start")
    ensures FrameState(f) == GameOver <==> FirstButtonIs(f, "end") || FirstButtonIs(f, "win")
    ensures FrameState(f) == Playing <==> forall y :: StripRow(f, y) ==> !Vision.ButtonAt(f, f.width / 2, y)
  {
    var x, cut := f.width / 2, Vision.ScanCut(f.height);
    var d := Vision.StripFrom(f, x, cut);
    Vision.StripFromShape(f, x, cut);
    Vision.StripFromMiss(f, x, cut);
    if d.name != Vision.InGame {
      Vision.StripFromFirst(f, x, cut);
      assert StripRow(f, d.at.y);
      assert FirstButtonIs(f, d.name);
    }
    if FirstButtonIs(f, "start") {
      FirstButtonReported(f, "start");
    }
    if FirstButtonIs(f, "end") {
      FirstButtonReported(f, "end");
    }
    if FirstButtonIs(f, "win") {
      FirstButtonReported(f, "win");
    }
  }

  // ---------------------------------------------------------------------------
  // runZigZagLogic

  /** `isColorWhite`: all three colour bytes above 200. */
  function IsColorWhite(p: int): (w: bool)
    ensures w ==> Masked(p) > 0xC8C8C8
    ensures w ==> !Vision.ColorMatch(p, 0x000000)
  {
    MaskedChannels(p);
    Red(p) > 200 && Green(p) > 200 && Blue(p) > 200
  }

  /** On a packed colour the test looks at the red, green and blue bytes only, never alpha. */
  lemma IsColorWhiteArgb(a: int, r: int, g: int, b: int)
    requires IsByte(a) && IsByte(r) && IsByte(g) && IsByte(b)
    ensures IsColorWhite(Argb(a, r, g, b)) <==> r > 200 && g > 200 && b > 200
  {
    ArgbChannels(a, r, g, b);
  }

  /** `v.coerceIn(lo, hi)`; Kotlin throws when `lo > hi`. */
  function Clamp(v: int, lo: int, hi: int): (r: int)
    requires lo <= hi
    ensures lo <= r <= hi
  {
    if v < lo then lo else if v > hi then hi else v
  }

  /**
   * The clamped value is `v` itself when inside `[lo, hi]`, and no point `w`
   * of the range lies nearer to `v`.
   */
  lemma ClampNearest(v: int, lo: int, hi: int, w: int)
    requires lo <= w <= hi
    ensures lo <= v <= hi ==> Clamp(v, lo, hi) == v
    ensures Vision.Abs(v - Clamp(v, lo, hi)) <= Vision.Abs(v - w)
  {
  }

  /** The pixel a sensor at `(x, y)` reads: the in-frame pixel nearest to it. */
  function SensorPixel(f: Frame, x: int, y: int): int32
    requires f.Valid()
  {
    f.Pixel(Clamp(x, 0, f.width - 1), Clamp(y, 0, f.height - 1))
  }

  /** What `runZigZagLogic` does with a frame and the sensor coordinates. */
  function ZigZagActions(f: Frame, lx: int, ly: int, rx: int, ry: int): seq<Action>
    requires f.Valid()
  {
    if IsColorWhite(SensorPixel(f, lx, ly)) || IsColorWhite(SensorPixel(f, rx, ry))
    then [Tap(f.width / 2, f.height / 2)]
    else []
  }

  /**
   * At most one tap, always at the frame's centre, issued exactly when either
   * sensor reads white; a sensor inside the frame reads its own pixel.
   */
  lemma ZigZagSpec(f: Frame, lx: int, ly: int, rx: int, ry: int)
    requires f.Valid()
    ensures var acts := ZigZagActions(f, lx, ly, rx, ry);
      && |acts| <= 1
      && (forall a :: a in acts ==> a == Tap(f.width / 2, f.height / 2))
      && (acts != [] <==> IsColorWhite(SensorPixel(f, lx, ly)) || IsColorWhite(SensorPixel(f, rx, ry)))
    ensures f.Contains(lx, ly) ==> SensorPixel(f, lx, ly) == f.Pixel(lx, ly)
    ensures f.Contains(rx, ry) ==> SensorPixel(f, rx, ry) == f.Pixel(rx, ry)
  {
    ClampNearest(lx, 0, f.width - 1, 0);
    ClampNearest(ly, 0, f.height - 1, 0);
    ClampNearest(rx, 0, f.width - 1, 0);
    ClampNearest(ry, 0, f.height - 1, 0);
  }

  // ---------------------------------------------------------------------------
  // gameLoop

  /** What one run of `gameLoop` does; `None` is a frame the capture could not deliver. */
  function LoopActions(frame: Option<Frame>, button: Point, lx: int, ly: int, rx: int, ry: int): seq<Action>
    requires frame.Some? ==> frame.value.Valid()
  {
    match frame
    case None => []
    case Some(f) =>
      match FrameState(f)
      case StartScreen => [Tap(button.x, button.y)]
      case Playing => ZigZagActions(f, lx, ly, rx, ry)
      case GameOver => [TriggerReset]
  }

  /**
   * Without a frame nothing happens. With one, the loop taps the play button
   * exactly when the strip's first button is the start button, asks for a
   * reset exactly when it is the win or an end button, and otherwise does only
   * what the zig-zag logic does. Never more than one action.
   */
  lemma LoopActionsSpec(frame: Option<Frame>, button: Point, lx: int, ly: int, rx: int, ry: int)
    requires frame.Some? ==> frame.value.Valid()
    ensures var acts := LoopActions(frame, button, lx, ly, rx, ry);
      && |acts| <= 1
      && (frame.None? ==> acts == [])
      && (frame.Some? ==>
            var f := frame.value;
            && (FirstButtonIs(f, "start") ==> acts == [Tap(button.x, button.y)])
            && (acts == [TriggerReset] <==> FirstButtonIs(f, "end") || FirstButtonIs(f, "win"))
            && ((forall y :: StripRow(f, y) ==> !Vision.ButtonAt(f, f.width / 2, y)) ==>
                  acts == ZigZagActions(f, lx, ly, rx, ry)))
  {
    if frame.Some? {
      var f := frame.value;
      FrameStateSpec(f);
      ZigZagSpec(f, lx, ly, rx, ry);
    }
  }

  // ---------------------------------------------------------------------------
  // The service object

  class BotService {
    var isRunning: bool
    /** The frame-loop callback is queued on the main `Handler`. */
    var callbackPending: bool
    var playButtonCoords: Point
    var leftSensorX: int32
    var leftSensorY: int32
    var rightSensorX: int32
    var rightSensorY: int32
    /** The taps and reset requests issued so far, oldest first. */
    var actions: seq<Action>

    /** The loop callback is queued exactly while the bot runs. */
    ghost predicate Valid()
      reads this
    {
      callbackPending == isRunning
    }

    /** A fresh service: stopped, with the default calibration. */
    constructor ()
      ensures Valid() && !isRunning && actions == []
      ensures playButtonCoords == Point(540, 1800)
      ensures leftSensorX == 200 && leftSensorY == 1500 && rightSensorX == 880 && rightSensorY == 1500
    {
      isRunning := false;
      callbackPending := false;
      playButtonCoords := Point(540, 1800);
      leftSensorX, leftSensorY := 200, 1500;
      rightSensorX, rightSensorY := 880, 1500;
      actions := [];
    }

    /** `startBot`: a no-op while running; otherwise set the flag and queue the loop. */
    method StartBot()
      requires Valid()
      modifies this`isRunning, this`callbackPending
      ensures Valid() && isRunning
      ensures old(isRunning) ==> callbackPending == old(callbackPending)
    {
      if isRunning {
        return;
      }
      isRunning := true;
      callbackPending := true;
    }

    /** `stopBot`: clear the flag and drop the queued callback. */
    method StopBot()
      modifies this`isRunning, this`callbackPending
      ensures Valid() && !isRunning && !callbackPending
    {
      isRunning := false;
      callbackPending := false;
    }

    /** The queued callback of `startBot` runs: one `gameLoop`, then re-queue while running. */
    method RunCallback(frame: Option<Frame>)
      requires Valid() && callbackPending
      requires frame.Some? ==> frame.value.Valid()
      modifies this`actions, this`callbackPending
      ensures Valid() && callbackPending
      ensures actions == old(actions) + LoopActions(frame, playButtonCoords, leftSensorX, leftSensorY, rightSensorX, rightSensorY)
    {
      callbackPending := false;
      if isRunning {
        GameLoop(frame);
        callbackPending := true;
      }
    }

    /** `gameLoop`: classify the frame and act on the state. */
    method GameLoop(frame: Option<Frame>)
      requires frame.Some? ==> frame.value.Valid()
      modifies this`actions
      ensures actions == old(actions) + LoopActions(frame, playButtonCoords, leftSensorX, leftSensorY, rightSensorX, rightSensorY)
    {
      if frame.None? {
        return;
      }
      var bitmap := frame.value;
      var state := DetectGameState(bitmap);
      match state {
        case StartScreen => actions := actions + [Tap(playButtonCoords.x, playButtonCoords.y)];
        case Playing => RunZigZagLogic(bitmap);
        case GameOver => actions := actions + [TriggerReset];
      }
    }

    /** `detectGameState`: the strip scan's label as a game state. */
    method DetectGameState(screen: Frame) returns (state: State)
      requires screen.Valid()
      ensures state == FrameState(screen)
    {
      var current := Vision.GetCurrentState(screen);
      match current.name {
        case "start" => state := StartScreen;
        case "end" => state := GameOver;
        case "win" => state := GameOver;
        case _ => state := Playing;
      }
    }

    /** `runZigZagLogic`: tap the centre when either clamped sensor reads white. */
    method RunZigZagLogic(screen: Frame)
      requires screen.Valid()
      modifies this`actions
      ensures actions == old(actions) + ZigZagActions(screen, leftSensorX, leftSensorY, rightSensorX, rightSensorY)
    {
      var lx := Clamp(leftSensorX, 0, screen.width - 1);
      var ly := Clamp(leftSensorY, 0, screen.height - 1);
      var rx := Clamp(rightSensorX, 0, screen.width - 1);
      var ry := Clamp(rightSensorY, 0, screen.height - 1);
      var leftPixel := screen.Pixel(lx, ly);
      var rightPixel := screen.Pixel(rx, ry);
      if IsColorWhite(leftPixel) || IsColorWhite(rightPixel) {
        actions := actions + [Tap(screen.width / 2, screen.height / 2)];
      }
    }

    /** `calibrateSensors`: overwrite the four sensor coordinates, nothing else. */
    method CalibrateSensors(lx: int32, ly: int32, rx: int32, ry: int32)
      modifies this`leftSensorX, this`leftSensorY, this`rightSensorX, this`rightSensorY
      ensures leftSensorX == lx && leftSensorY == ly && rightSensorX == rx && rightSensorY == ry
    {
      leftSensorX, leftSensorY := lx, ly;
      rightSensorX, rightSensorY := rx, ry;
    }

    /**
     * `performCalibration`: with a frame, run the colour vote and drop its
     * result. Nothing of the service changes, and the path colour is a constant.
     */
    method PerformCalibration(frame: Option<Frame>)
      requires frame.Some? ==> frame.value.Valid()
      ensures unchanged(this)
    {
      if frame.Some? {
        var _ := Vision.CalibratePathColor(frame.value);
      }
    }
  }
}
