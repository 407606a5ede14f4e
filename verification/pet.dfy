/**
 The state of the desktop pet as held by its animation window: the animation
 state machine (current and last state, frame counter), the walking direction,
 the drag gesture and the window's position on screen, together with the
 compiled-in facts the engine reads but never changes.
 */
module PetModel {

  /** The three animation states; the pet starts out Idle. */
  datatype State = Idle | Sleeping | Walking

  /** A screen coordinate or an offset inside the window, in pixels. */
  datatype Point = Point(x: int, y: int)

  /** The four frame sequences the animation draws from. */
  datatype Sequence = Happy | Sleep | WalkRight | WalkLeft

  /** Horizontal displacement of one autonomous walking step, in pixels. */
  const MoveSpeed: int := 3

  /** A random draw below this value fires the transition it guards. */
  const FireBelow: int := 2

  /** Exclusive upper bounds of the three random draws: falling asleep
      (from Idle or Walking), waking up, and turning round while walking. */
  const SleepDrawRange: int := 500
  const WakeDrawRange: int := 350
  const TurnDrawRange: int := 500

  /** The exclusive upper bound of the draw that guards leaving state `s`:
      waking up when Sleeping, falling asleep otherwise. */
  function DrawRange(s: State): int {
    if s == Sleeping then WakeDrawRange else SleepDrawRange
  }

  /** Whether a random draw fires the transition it guards. */
  predicate Fires(draw: int) {
    draw < FireBelow
  }

  /** What the engine reads but never changes: how many frames each sequence
      holds, the horizontal extent of the union of all screens, and the
      window's width. */
  datatype Config = Config(
    happyLen: nat, sleepLen: nat, walkRightLen: nat, walkLeftLen: nat,
    screenLeft: int, screenWidth: int, windowWidth: int)
  {
    /** Every sequence the engine indexes is non-empty: each tick reduces the
        frame counter modulo the length of one of them. */
    predicate Valid() {
      happyLen > 0 && sleepLen > 0 && walkRightLen > 0 && walkLeftLen > 0
    }

    /** The right edge of the screen area. */
    function ScreenRight(): int {
      screenLeft + screenWidth
    }

    /** The number of frames in sequence `s`. */
    function Len(s: Sequence): nat {
      match s
      case Happy => happyLen
      case Sleep => sleepLen
      case WalkRight => walkRightLen
      case WalkLeft => walkLeftLen
    }

    /** The length of the longest sequence. */
    function MaxLen(): (m: nat)
      ensures forall s: Sequence :: Len(s) <= m
      ensures exists s: Sequence :: Len(s) == m
    {
      var a := if happyLen < sleepLen then sleepLen else happyLen;
      var b := if walkRightLen < walkLeftLen then walkLeftLen else walkRightLen;
      var m := if a < b then b else a;
      assert Len(Happy) <= m && Len(Sleep) <= m && Len(WalkRight) <= m && Len(WalkLeft) <= m;
      assert forall s: Sequence :: Len(s) == Len(Happy) || Len(s) == Len(Sleep) || Len(s) == Len(WalkRight) || Len(s) == Len(WalkLeft);
      assert m == Len(Happy) || m == Len(Sleep) || m == Len(WalkRight) || m == Len(WalkLeft);
      m
    }
  }

  /** The pet. `walkRight` is the walking direction (true = towards larger x,
      drawn with the walk-right frames); it persists across state changes.
      `dragOffset` is the pointer's position inside the window when the last
      press happened; `exited` records that the application was asked to
      terminate. */
  datatype Pet = Pet(
    state: State, lastState: State, frame: nat, walkRight: bool,
    dragging: bool, dragOffset: Point, pos: Point, exited: bool)

  /** The sequence drawn for a state and direction. */
  function SequenceFor(state: State, walkRight: bool): Sequence {
    match state
    case Idle => Happy
    case Sleeping => Sleep
    case Walking => if walkRight then WalkRight else WalkLeft
  }

  /** The pet as the window is created, placed at `pos`. */
  function Initial(pos: Point): (p: Pet)
    ensures p.state == Idle && p.lastState == Idle && p.frame == 0
    ensures !p.walkRight && !p.dragging && !p.exited && p.pos == pos
  {
    Pet(Idle, Idle, 0, false, false, Point(0, 0), pos, false)
  }

  /** The invariant every reachable pet keeps: the state to resume after
      sleeping is never Sleeping itself, and the stored frame counter is
      already reduced below the length of some sequence. */
  predicate Wf(cfg: Config, p: Pet) {
    p.lastState != Sleeping && p.frame < cfg.MaxLen()
  }
}
