/**
 A session of the pet: the timer ticks and mouse events the window receives,
 one at a time on a single thread, and what a run of them does to the pet.
 */
module Session {
  import opened PetModel
  import opened Motion
  import opened Animation
  import opened Interaction

  /** One callback the window receives. A timer tick carries its two random
      draws; a press carries the pointer's position inside the window, a drag
      the pointer's position on screen, a click its click count. */
  datatype Event =
    | TimerTick(draw: int, turnDraw: int)
    | Press(at: Point)
    | Release
    | Drag(onScreen: Point)
    | Click(count: int)

  /** Handling one event. Once the application has been asked to terminate
      no further event is handled. */
  function Step(cfg: Config, p: Pet, e: Event): (r: Pet)
    requires cfg.Valid()
    ensures p.exited ==> r == p
    ensures Wf(cfg, p) ==> Wf(cfg, r)
  {
    if p.exited then p
    else
      match e
      case TimerTick(draw, turnDraw) => Tick(cfg, p, draw, turnDraw)
      case Press(at) => Pressed(p, at)
      case Release => Released(p)
      case Drag(onScreen) => Dragged(p, onScreen)
      case Click(count) => Clicked(p, count)
  }

  /** Handling a sequence of events in order. Every run keeps the pet's
      invariant, and a terminated pet stays as it was. */
  function Run(cfg: Config, p: Pet, es: seq<Event>): (r: Pet)
    requires cfg.Valid()
    ensures Wf(cfg, p) ==> Wf(cfg, r)
    ensures p.exited ==> r == p
    decreases |es|
  {
    if es == [] then p else Run(cfg, Step(cfg, p, es[0]), es[1..])
  }

  /** Running two sequences one after the other is running their
      concatenation. */
  lemma {:induction false} RunAppend(cfg: Config, p: Pet, a: seq<Event>, b: seq<Event>)
    requires cfg.Valid()
    ensures Run(cfg, p, a + b) == Run(cfg, Run(cfg, p, a), b)
    decreases |a|
  {
    if a == [] {
      assert a + b == b;
    } else {
      var q := Step(cfg, p, a[0]);
      assert (a + b)[0] == a[0];
      assert (a + b)[1..] == a[1..] + b;
      assert Run(cfg, p, a + b) == Run(cfg, q, a[1..] + b);
      RunAppend(cfg, q, a[1..], b);
    }
  }

  /** Every pet reachable from a freshly created one keeps the invariant:
      the state to resume after sleeping is never Sleeping, and the frame
      counter is below the length of the longest sequence. */
  lemma ReachableIsWf(cfg: Config, pos: Point, es: seq<Event>)
    requires cfg.Valid()
    ensures Wf(cfg, Run(cfg, Initial(pos), es))
    ensures Run(cfg, Initial(pos), es).lastState != Sleeping
  {
    assert Wf(cfg, Initial(pos)) by {
      assert cfg.Len(Happy) <= cfg.MaxLen();
    }
  }

  /** Whether every event of `es` is a timer tick. */
  predicate AllTicks(es: seq<Event>) {
    forall i :: 0 <= i < |es| ==> es[i].TimerTick?
  }

  /** While the window is being dragged, no number of timer ticks moves it:
      the walking step is suppressed and the gesture stays in progress. */
  lemma {:induction false} TicksWhileDraggingKeepPosition(cfg: Config, p: Pet, es: seq<Event>)
    requires cfg.Valid() && p.dragging && AllTicks(es)
    ensures Run(cfg, p, es).pos == p.pos
    ensures Run(cfg, p, es).dragging
    decreases |es|
  {
    if es != [] {
      var q := Step(cfg, p, es[0]);
      assert q.pos == p.pos && q.dragging;
      assert AllTicks(es[1..]) by {
        forall i | 0 <= i < |es[1..]| ensures es[1..][i].TimerTick? {
          assert es[1..][i] == es[i + 1];
        }
      }
      TicksWhileDraggingKeepPosition(cfg, q, es[1..]);
    }
  }

  /** `n` separate single clicks at `at` inside the window: each is a
      press, a release and a click event with click count 1. */
  function SeparateClicks(n: nat, at: Point): seq<Event>
    decreases n
  {
    if n == 0 then [] else [Press(at), Release, Click(1)] + SeparateClicks(n - 1, at)
  }

  /** The state a single click leaves a pet that is not walking in. */
  function OtherRestState(s: State): State {
    if s == Idle then Sleeping else Idle
  }

  /** Repeated single clicks on a pet that is not walking alternate between
      Idle and Sleeping. Apart from that, the clicks only end the drag
      gesture their presses started and leave the last grab point behind. */
  lemma {:induction false} SingleClicksAlternate(cfg: Config, p: Pet, at: Point, n: nat)
    requires cfg.Valid() && !p.exited && p.state != Walking
    ensures Run(cfg, p, SeparateClicks(n, at))
              == if n == 0 then p
                 else p.(state := if n % 2 == 0 then p.state else OtherRestState(p.state),
                         dragging := false, dragOffset := at)
    decreases n
  {
    if n > 0 {
      var g := [Press(at), Release, Click(1)];
      RunAppend(cfg, p, g, SeparateClicks(n - 1, at));
      OneClick(cfg, p, at, 1);
      SingleClicksAlternate(cfg, Run(cfg, p, g), at, n - 1);
    }
  }

  /** Whether every event of `es` is a timer tick whose sleep or wake draw
      does not fire. */
  predicate QuietTicks(es: seq<Event>) {
    forall i :: 0 <= i < |es| ==> es[i].TimerTick? && !Fires(es[i].draw)
  }

  /** A sleeping pet keeps sleeping through ticks whose wake draw does not
      fire, and keeps the state it will resume, its direction and its
      position. */
  lemma {:induction false} QuietSleep(cfg: Config, p: Pet, es: seq<Event>)
    requires cfg.Valid() && !p.exited && p.state == Sleeping && QuietTicks(es)
    ensures var r := Run(cfg, p, es);
            r.state == Sleeping && r.lastState == p.lastState && !r.exited
            && r.walkRight == p.walkRight && r.pos == p.pos
    decreases |es|
  {
    if es != [] {
      var q := Step(cfg, p, es[0]);
      assert QuietTicks(es[1..]) by {
        forall i | 0 <= i < |es[1..]| ensures es[1..][i].TimerTick? && !Fires(es[1..][i].draw) {
          assert es[1..][i] == es[i + 1];
        }
      }
      QuietSleep(cfg, q, es[1..]);
    }
  }

  /** Falling asleep and waking up again returns the pet to the state it
      fell asleep from, however long it slept. */
  lemma SleepResumesPriorState(cfg: Config, p: Pet, fall: Event, naps: seq<Event>, wake: Event)
    requires cfg.Valid() && !p.exited && p.state != Sleeping
    requires fall.TimerTick? && Fires(fall.draw)
    requires QuietTicks(naps)
    requires wake.TimerTick? && Fires(wake.draw)
    ensures Run(cfg, p, [fall] + naps + [wake]).state == p.state
  {
    var asleep := Step(cfg, p, fall);
    assert Run(cfg, p, [fall]) == asleep;
    assert asleep.state == Sleeping && asleep.lastState == p.state;
    QuietSleep(cfg, asleep, naps);
    var rested := Run(cfg, asleep, naps);
    assert Run(cfg, rested, [wake]) == Step(cfg, rested, wake);
    RunAppend(cfg, p, [fall], naps);
    RunAppend(cfg, p, [fall] + naps, [wake]);
  }

  /** A single click that puts an Idle pet to sleep does not record Idle as
      the state to resume: a firing wake draw, after any quiet ticks, brings
      the pet back to the resume state it already had, which may be
      Walking. */
  lemma ClickedAsleepWakesToResumeState(cfg: Config, p: Pet, at: Point, naps: seq<Event>, wake: Event)
    requires cfg.Valid() && !p.exited && p.state == Idle
    requires QuietTicks(naps)
    requires wake.TimerTick? && Fires(wake.draw)
    ensures Run(cfg, p, [Press(at), Release, Click(1)] + naps + [wake]).state
              == (if p.lastState == Idle then Idle else Walking)
  {
    var click := [Press(at), Release, Click(1)];
    OneClick(cfg, p, at, 1);
    var asleep := Run(cfg, p, click);
    assert asleep.state == Sleeping && asleep.lastState == p.lastState;
    QuietSleep(cfg, asleep, naps);
    var rested := Run(cfg, asleep, naps);
    assert Run(cfg, rested, [wake]) == Step(cfg, rested, wake);
    RunAppend(cfg, p, click, naps);
    RunAppend(cfg, p, click + naps, [wake]);
  }

  /** A freshly created pet that is double-clicked into walking, falls
      asleep on a tick and wakes up again, and is then clicked to Idle,
      still remembers Walking. Clicked to sleep from Idle, it wakes up
      walking on the next firing wake draw. */
  lemma ClickedAsleepFromIdleCanWakeWalking(cfg: Config, pos: Point, at: Point)
    requires cfg.Valid()
    ensures var walking := Run(cfg, Initial(pos), ClickGesture(2, at) + [TimerTick(0, FireBelow), TimerTick(0, FireBelow)]);
            var idle := Run(cfg, walking, [Press(at), Release, Click(1)]);
            && idle.state == Idle && idle.lastState == Walking
            && Run(cfg, idle, [Press(at), Release, Click(1), TimerTick(0, FireBelow)]).state == Walking
  {
    var p0 := Initial(pos);
    var tick := TimerTick(0, FireBelow);
    DoubleClickWalks(cfg, p0, at);
    var w0 := Run(cfg, p0, ClickGesture(2, at));
    RunAppend(cfg, p0, ClickGesture(2, at), [tick, tick]);
    var napping := Step(cfg, w0, tick);
    assert napping.state == Sleeping && napping.lastState == Walking;
    assert [tick, tick][1..] == [tick];
    assert Run(cfg, w0, [tick, tick]) == Run(cfg, napping, [tick]);
    var walking := Step(cfg, napping, tick);
    assert Run(cfg, napping, [tick]) == Run(cfg, walking, []);
    assert walking.state == Walking && walking.lastState == Walking && !walking.exited;
    OneClick(cfg, walking, at, 1);
    var idle := Run(cfg, walking, [Press(at), Release, Click(1)]);
    ClickedAsleepWakesToResumeState(cfg, idle, at, [], tick);
    assert [Press(at), Release, Click(1)] + [] + [tick] == [Press(at), Release, Click(1), tick];
  }

  /** Whether every event of `es` is a drag. */
  predicate AllDrags(es: seq<Event>) {
    forall i :: 0 <= i < |es| ==> es[i].Drag?
  }

  /** During a drag gesture, after any non-empty run of drags the pointer's
      last screen position lies at the grab offset inside the window. */
  lemma {:induction false} DragsFollowPointer(cfg: Config, p: Pet, es: seq<Event>)
    requires cfg.Valid() && !p.exited && p.dragging && AllDrags(es) && es != []
    ensures var r := Run(cfg, p, es);
            var last := es[|es| - 1].onScreen;
            r.pos.x + p.dragOffset.x == last.x && r.pos.y + p.dragOffset.y == last.y
            && r.dragging && r.dragOffset == p.dragOffset
    decreases |es|
  {
    var q := Step(cfg, p, es[0]);
    if |es| > 1 {
      assert AllDrags(es[1..]) by {
        forall i | 0 <= i < |es[1..]| ensures es[1..][i].Drag? {
          assert es[1..][i] == es[i + 1];
        }
      }
      DragsFollowPointer(cfg, q, es[1..]);
    } else {
      assert Run(cfg, p, es) == Run(cfg, q, []);
    }
  }

  /** A press followed by drags moves the window one-to-one with the
      pointer, keeping the point where it was grabbed under the pointer. */
  lemma PressAndDrag(cfg: Config, p: Pet, at: Point, drags: seq<Event>)
    requires cfg.Valid() && !p.exited && AllDrags(drags) && drags != []
    ensures var r := Run(cfg, p, [Press(at)] + drags);
            var last := drags[|drags| - 1].onScreen;
            r.pos.x + at.x == last.x && r.pos.y + at.y == last.y && r.dragging
  {
    var q := Step(cfg, p, Press(at));
    RunAppend(cfg, p, [Press(at)], drags);
    assert Run(cfg, p, [Press(at)]) == q;
    DragsFollowPointer(cfg, q, drags);
  }

  /** The events of an `n`-fold click at `at` inside the window: each
      press and release is followed by a click event carrying the running
      click count. */
  function ClickGesture(n: nat, at: Point): (es: seq<Event>)
    ensures |es| == 3 * n
    decreases n
  {
    if n == 0 then [] else ClickGesture(n - 1, at) + [Press(at), Release, Click(n)]
  }

  /** The effect of one press, release and click at `at` with click count
      `count`: the click's effect, with the drag gesture over. */
  lemma OneClick(cfg: Config, p: Pet, at: Point, count: int)
    requires cfg.Valid() && !p.exited
    ensures Run(cfg, p, [Press(at), Release, Click(count)])
              == Clicked(p.(dragging := false, dragOffset := at), count)
  {
    var es := [Press(at), Release, Click(count)];
    var q1 := Step(cfg, p, Press(at));
    var q2 := Step(cfg, q1, Release);
    assert es[1..] == [Release, Click(count)];
    assert es[1..][1..] == [Click(count)];
    assert Run(cfg, p, es) == Run(cfg, q1, [Release, Click(count)]);
    assert Run(cfg, q1, [Release, Click(count)]) == Run(cfg, q2, [Click(count)]);
    assert Run(cfg, q2, [Click(count)]) == Run(cfg, Step(cfg, q2, Click(count)), []);
  }

  /** A double click makes any pet walk in the opposite direction, whatever
      state it was in, and leaves the window where it was. */
  lemma DoubleClickWalks(cfg: Config, p: Pet, at: Point)
    requires cfg.Valid() && !p.exited
    ensures var r := Run(cfg, p, ClickGesture(2, at));
            r.state == Walking && r.walkRight == !p.walkRight
            && r.lastState == p.lastState && r.frame == p.frame
            && !r.dragging && r.pos == p.pos && !r.exited
  {
    var g1 := [Press(at), Release, Click(1)];
    var g2 := [Press(at), Release, Click(2)];
    assert ClickGesture(1, at) == g1;
    assert ClickGesture(2, at) == g1 + g2;
    RunAppend(cfg, p, g1, g2);
    OneClick(cfg, p, at, 1);
    OneClick(cfg, Run(cfg, p, g1), at, 2);
  }

  /** A triple click terminates the application whatever state the pet is
      in, after which no event changes it. */
  lemma TripleClickExits(cfg: Config, p: Pet, at: Point, later: seq<Event>)
    requires cfg.Valid()
    ensures Run(cfg, p, ClickGesture(3, at)).exited
    ensures Run(cfg, p, ClickGesture(3, at) + later) == Run(cfg, p, ClickGesture(3, at))
  {
    var g := ClickGesture(2, at);
    var g3 := [Press(at), Release, Click(3)];
    assert ClickGesture(3, at) == g + g3;
    RunAppend(cfg, p, g, g3);
    var q := Run(cfg, p, g);
    if !q.exited {
      OneClick(cfg, q, at, 3);
    }
    RunAppend(cfg, p, g + g3, later);
  }

  /** Dispatching events one at a time, as the window's event loop does,
      yields the pet the run describes and keeps its invariant. */
  method Replay(cfg: Config, p: Pet, es: seq<Event>) returns (q: Pet)
    requires cfg.Valid() && Wf(cfg, p)
    ensures q == Run(cfg, p, es)
    ensures Wf(cfg, q)
  {
    q := p;
    var i := 0;
    while i < |es|
      invariant 0 <= i <= |es|
      invariant Run(cfg, q, es[i..]) == Run(cfg, p, es)
    {
      assert es[i..][1..] == es[i + 1..];
      q := Step(cfg, q, es[i]);
      i := i + 1;
    }
    assert es[i..] == [];
  }
}
