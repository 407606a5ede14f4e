# Desktop pet: animation and interaction engine

A model of the engine behind a desktop "pet". The pet is a small borderless,
always-on-top window that shows sprite animations. It can be idle (the happy
frames), sleeping, or walking left or right. It falls asleep and wakes up at
random, walks along the screen and bounces off its edges, and follows the
mouse while it is being dragged. Clicking it once, twice or three times
toggles sleep, starts walking the other way, or quits.

Every part of the engine is a pure function over an immutable `Pet` record:

- `pet.dfy` (module `PetModel`): the data model. It holds the three states,
  the `Pet` record and the `Config`. The `Config` gives the sequence lengths,
  the screen area's left edge and width, and the window width. It also holds
  the constants: walking speed 3, draw ranges 500/350/500, firing threshold 2.
  It defines the invariant `Wf` as well.
- `motion.dfy` (module `Motion`): one autonomous walking step with the edge
  bounce.
- `animation.dfy` (module `Animation`): the per-tick state machine and the
  choice of the frame to draw.
- `interaction.dfy` (module `Interaction`): press, release, drag and click
  handling, and the two manual toggles.
- `session.dfy` (module `Session`): runs of timer ticks and mouse events
  handled one at a time, and the properties of such runs.

Abstractions:

- Each random draw (`nextInt(500)` or `nextInt(350)`) is an integer
  parameter. A transition fires when its draw is below 2.
  - A tick always takes two draws. The second, `turnDraw`, is read only when
    the pet is walking. This matches the code, which draws it only in that
    case.
- Screen bounds, window width and sequence lengths are fields of `Config`.
- The four sequences the engine indexes must be non-empty (`Config.Valid`),
  because each tick divides by one of their lengths.
- `System.exit` on a triple click sets the `exited` flag. After that,
  `Session.Step` handles no further event.

Behaviour of the code that the model keeps as it is:

- The frame counter is stored already reduced, against the sequence for the
  state and direction the tick starts in, and a state change does not reset
  it. The frame that is drawn reduces it again against the new sequence.
- A failed image load fills only the idle sequence
  (src/main/java/com/hhhu/PetFrame.java:182-190), which is never drawn. The
  happy, sleep and walk sequences can then be empty, and the first tick would
  divide by zero. `Config.Valid` excludes this.
- Only a tick that puts the pet to sleep records the state to resume. A single
  click that puts an Idle pet to sleep leaves the resume state as it was
  (src/main/java/com/hhhu/PetFrame.java:269-272). If the pet last fell asleep
  on a tick while walking, it wakes up walking even though it was clicked to
  sleep from Idle (`Session.ClickedAsleepWakesToResumeState`,
  `Session.ClickedAsleepFromIdleCanWakeWalking`).

## Model

| member | source | states |
|---|---|---|
| PetModel.Initial | src/main/java/com/hhhu/PetFrame.java:16-31 | The window starts Idle with resume state Idle, frame 0, facing left, not dragging. |
| Motion.MoveWindow | src/main/java/com/hhhu/PetFrame.java:153-180 | A dragged window neither moves nor turns. Otherwise, at or past the left edge it faces right and lands 3 px inside that edge. At or past the right edge it faces left and lands 3 px inside that edge. Strictly inside, it keeps its direction and moves 3 px that way. y never changes. |
| Motion.MoveStaysNearScreen | src/main/java/com/hhhu/PetFrame.java:160-178 | After any undragged step, the window overshoots either screen edge by less than the 3 px speed, provided it is narrower than the screen area. |
| Animation.CurrentFrame | src/main/java/com/hhhu/PetFrame.java:208-216 | The drawn frame comes from the sequence chosen by state and direction (happy, sleep, walk-right or walk-left). Its index is in range for every counter value. |
| Animation.Tick | src/main/java/com/hhhu/PetFrame.java:122-152 | The counter becomes (f+1) mod the length of the tick's starting sequence. Idle sleeps on a firing draw and remembers Idle. Sleeping wakes to Idle or Walking according to the resume state. Walking sleeps and remembers Walking without moving, or else takes a walking step; a firing second draw then reverses direction. Dragging prevents any move. The resume state never becomes Sleeping. |
| Animation.StateChangeOdds | src/main/java/com/hhhu/PetFrame.java:126-141 | The first draw of a tick comes from [0, 500) when Idle or Walking and from [0, 350) when Sleeping. Exactly the values 0 and 1 make `Tick` leave the state, so the pet falls asleep with odds 2/500 and wakes with odds 2/350 per tick. |
| Animation.TurnOdds | src/main/java/com/hhhu/PetFrame.java:147-149 | For a walking pet, the second draw comes from [0, 500). Exactly the values 0 and 1 make `Tick` reverse the direction it would otherwise leave, so it turns with odds 2/500 per tick. |
| Animation.TickAdvancesDrawnFrame | src/main/java/com/hhhu/PetFrame.java:124-140 | After a tick that keeps state and direction, the drawn frame is the cyclic successor of the one drawn before. |
| Interaction.ToggleIdleSleep | src/main/java/com/hhhu/PetFrame.java:269-272 | A single click puts Idle to sleep and makes Sleeping or Walking Idle. Nothing else changes, including the resume state. |
| Interaction.ToggleWalking | src/main/java/com/hhhu/PetFrame.java:274-277 | A double click reverses the direction and makes the pet walk, from any state. Nothing else changes. |
| Interaction.Clicked | src/main/java/com/hhhu/PetFrame.java:249-256 | Count 1 toggles sleep, count 2 toggles walking, and count 3 terminates. Any other count changes nothing. No click touches the resume state, frame counter, drag gesture or position. |
| Interaction.Pressed | src/main/java/com/hhhu/PetFrame.java:246 | A press starts a drag gesture and remembers the grab point inside the window. |
| Interaction.Released | src/main/java/com/hhhu/PetFrame.java:247 | A release ends the drag gesture and changes nothing else. |
| Interaction.Dragged | src/main/java/com/hhhu/PetFrame.java:260-264 | During a gesture, the window moves so that the grab point is under the pointer. Outside a gesture nothing changes. |
| Interaction.ToggleIdleSleepTwice | src/main/java/com/hhhu/PetFrame.java:269-272 | Two single clicks cancel out on a pet that is not walking. A walking pet ends up asleep. |
| Interaction.ToggleWalkingTwice | src/main/java/com/hhhu/PetFrame.java:274-277 | Two double clicks restore the direction and leave the pet walking. |
| Session.Step | src/main/java/com/hhhu/PetFrame.java:244-266 | Each tick or mouse event keeps the invariant: the resume state is never Sleeping and the counter is below the longest sequence's length. Once terminated, nothing changes. |
| Session.Run | src/main/java/com/hhhu/PetFrame.java:122-150 | Every run of events keeps that invariant, and a terminated pet stays as it is. |
| Session.ReachableIsWf | src/main/java/com/hhhu/PetFrame.java:16-21 | Every pet reachable from the initial one satisfies the invariant. In particular its resume state is never Sleeping. |
| Session.TicksWhileDraggingKeepPosition | src/main/java/com/hhhu/PetFrame.java:153-155 | While a drag gesture is in progress, no number of ticks moves the window. |
| Session.SingleClicksAlternate | src/main/java/com/hhhu/PetFrame.java:246-272 | On a pet that is not walking, n separate single clicks (each a press, a release and a count-1 click) leave it in its starting state if n is even and in the other rest state if n is odd. The only other changes: the drag gesture is over and the grab point is the click point. |
| Session.QuietSleep | src/main/java/com/hhhu/PetFrame.java:132-137 | A sleeping pet stays asleep through non-firing ticks and keeps its resume state, direction and position. |
| Session.SleepResumesPriorState | src/main/java/com/hhhu/PetFrame.java:124-143 | Falling asleep on a tick and then waking, after any number of quiet ticks, returns the pet to the state it fell asleep from. |
| Session.ClickedAsleepWakesToResumeState | src/main/java/com/hhhu/PetFrame.java:269-272 | A single click that puts an Idle pet to sleep does not record Idle. A later firing wake draw returns the pet to its earlier resume state, Idle or Walking. |
| Session.ClickedAsleepFromIdleCanWakeWalking | src/main/java/com/hhhu/PetFrame.java:132-143 | A fresh pet is double-clicked into walking, falls asleep and wakes on ticks, and is clicked to Idle. It still remembers Walking, and if it is then clicked to sleep it wakes up walking. |
| Session.DragsFollowPointer | src/main/java/com/hhhu/PetFrame.java:259-264 | During a gesture, after any run of drags the last pointer position sits at the grab offset inside the window. |
| Session.PressAndDrag | src/main/java/com/hhhu/PetFrame.java:246-264 | A press followed by drags moves the window one-to-one with the pointer. |
| Session.OneClick | src/main/java/com/hhhu/PetFrame.java:245-256 | A press, a release and a click together amount to the click's effect, with the gesture ended. |
| Session.DoubleClickWalks | src/main/java/com/hhhu/PetFrame.java:249-256 | A double click makes any pet walk in the opposite direction and leaves its position, frame and resume state as they were. |
| Session.TripleClickExits | src/main/java/com/hhhu/PetFrame.java:249-256 | A triple click terminates from any state, and no later event changes the pet. |
| Session.Replay | src/main/java/com/hhhu/PetFrame.java:244-266 | The event loop dispatches each callback in turn: timer ticks (which call the tick at line 109) and the mouse listeners. Handling them one at a time yields the pet that the run describes, and that pet keeps the invariant. |

The click gestures (`Session.ClickGesture`) rely on the toolkit's usual
delivery order for an n-fold click: press, release, then a click event whose
count runs 1, 2, …, n.

## Left out

- Image loading (`loadPetImages`, `loadFrames`, `loadImage`) and the placeholder fallback (`createPlaceholderImages`): toolkit I/O. Only the lengths of the four drawn sequences are modelled. The idle sequence is loaded but never drawn, so it is not modelled.
- Timer plumbing (`initAnimation`): the 300 ms Swing timer, coalescing, and the `300 - elapsed` delay correction depend on wall-clock time. The timer restart after each click does not change the pet's state.
- Screen-bounds computation (`initWindow`): the union of the display rectangles is taken as given (`screenLeft`, `screenWidth`). The window width (100 px in the code) is the `windowWidth` parameter.
- Random draws: `java.util.Random` is replaced by draw parameters. The model does not require the draws to lie in [0, 500) or [0, 350), because only whether a draw is below 2 matters.
- Java's 32-bit `int` arithmetic: coordinates and differences are unbounded integers. Overflow would need coordinates near 2^31, far outside any screen.
- Rendering (`paint`), rendering hints, the macOS system properties, the system tray and its "exit" item (`setupSystemTray`), and the entry point with its help dialog (`DesktopPet.java`): platform glue with no engine logic.
- The `default: return null` branch of `getCurrentFrame`: the three states are exhaustive, so it cannot be reached.
