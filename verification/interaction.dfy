/**
 The interaction gateway: the mouse handlers of the pet's window and the two
 manual state toggles they trigger.
 */
module Interaction {
  import opened PetModel

  /** A single click: Idle falls asleep, and Sleeping and Walking both
      become Idle. Nothing else changes; in particular the state to resume
      after sleeping is left as it was. */
  function ToggleIdleSleep(p: Pet): (r: Pet)
    ensures r.state == Sleeping <==> p.state == Idle
    ensures r.state != Walking
    ensures r == p.(state := r.state)
  {
    p.(state := if p.state == Idle then Sleeping
                else if p.state == Sleeping then Idle
                else Idle)
  }

  /** A double click: the direction reverses and the pet walks, whatever
      state it was in. Nothing else changes. */
  function ToggleWalking(p: Pet): (r: Pet)
    ensures r.state == Walking
    ensures r.walkRight != p.walkRight
    ensures r == p.(state := Walking, walkRight := r.walkRight)
  {
    p.(walkRight := !p.walkRight, state := Walking)
  }

  /** Clicking with click count `count`: one click toggles Idle and
      Sleeping, two clicks toggle the walking direction and start walking,
      three clicks terminate the application; any other count changes
      nothing. A click never touches the resume state, the frame counter,
      the drag gesture or the position. */
  function Clicked(p: Pet, count: int): (r: Pet)
    ensures r.lastState == p.lastState && r.frame == p.frame
    ensures r.dragging == p.dragging && r.dragOffset == p.dragOffset && r.pos == p.pos
    ensures count == 1 ==> r == ToggleIdleSleep(p)
    ensures count == 2 ==> r == ToggleWalking(p)
    ensures r.exited <==> p.exited || count == 3
    ensures count != 1 && count != 2 ==> r.state == p.state && r.walkRight == p.walkRight
  {
    match count
    case 1 => ToggleIdleSleep(p)
    case 2 => ToggleWalking(p)
    case 3 => p.(exited := true)
    case _ => p
  }

  /** Pressing a button at `at`, a point inside the window: the drag
      gesture starts and remembers where in the window it was grabbed. */
  function Pressed(p: Pet, at: Point): (r: Pet)
    ensures r.dragging && r.dragOffset == at
    ensures r == p.(dragging := true, dragOffset := at)
  {
    p.(dragOffset := at, dragging := true)
  }

  /** Releasing the button ends the drag gesture. */
  function Released(p: Pet): (r: Pet)
    ensures !r.dragging
    ensures r == p.(dragging := false)
  {
    p.(dragging := false)
  }

  /** Dragging the pointer to screen point `onScreen`: during a drag
      gesture the window moves so that the pointer sits at the same place
      inside it as when it was grabbed; outside a gesture nothing changes. */
  function Dragged(p: Pet, onScreen: Point): (r: Pet)
    ensures !p.dragging ==> r == p
    ensures p.dragging ==> r.pos.x + p.dragOffset.x == onScreen.x && r.pos.y + p.dragOffset.y == onScreen.y
    ensures r == p.(pos := r.pos)
  {
    if p.dragging then
      p.(pos := Point(onScreen.x - p.dragOffset.x, onScreen.y - p.dragOffset.y))
    else p
  }

  /** Two single clicks in a row undo each other on a pet that is not
      walking; a walking pet ends up asleep. */
  lemma ToggleIdleSleepTwice(p: Pet)
    ensures p.state != Walking ==> ToggleIdleSleep(ToggleIdleSleep(p)) == p
    ensures p.state == Walking ==> ToggleIdleSleep(ToggleIdleSleep(p)) == p.(state := Sleeping)
  {
  }

  /** Two double clicks in a row restore the direction and leave the pet
      walking. */
  lemma ToggleWalkingTwice(p: Pet)
    ensures ToggleWalking(ToggleWalking(p)) == p.(state := Walking)
  {
  }
}
