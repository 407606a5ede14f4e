/**
 The animation state machine: the per-tick update and the selection of the
 frame to draw.
 */
module Animation {
  import opened PetModel
  import opened Motion

  /** A frame of one of the four sequences. */
  datatype FrameRef = FrameRef(sequence: Sequence, index: nat)

  /** The frame drawn for the pet: the sequence chosen by state and
      direction, at the stored counter reduced modulo that sequence's length.
      The counter is reduced again here because a state change does not reset
      it. */
  function CurrentFrame(cfg: Config, p: Pet): (r: FrameRef)
    requires cfg.Valid()
    ensures r.sequence == SequenceFor(p.state, p.walkRight)
    ensures r.index < cfg.Len(r.sequence)
    ensures r.index == p.frame % cfg.Len(r.sequence)
  {
    var s := SequenceFor(p.state, p.walkRight);
    FrameRef(s, p.frame % cfg.Len(s))
  }

  /** One timer tick. `draw` is the random draw guarding the sleep or wake
      transition, taken from [0, `DrawRange(p.state)`); `turnDraw`, taken
      from [0, `TurnDrawRange`), is drawn and read only when Walking and
      guards turning round.

      The frame counter advances by one, reduced modulo the length of the
      sequence of the state and direction the tick starts in. Idle falls
      asleep on a firing draw, remembering Idle. Sleeping wakes on a firing
      draw into Idle if that was the state it fell asleep from and into
      Walking otherwise. Walking falls asleep on a firing draw, remembering
      Walking, and otherwise takes a walking step; then, whichever happened,
      a firing `turnDraw` reverses the direction. Nothing else changes. */
  function Tick(cfg: Config, p: Pet, draw: int, turnDraw: int): (r: Pet)
    requires cfg.Valid()
    ensures var n := cfg.Len(SequenceFor(p.state, p.walkRight));
            r.frame < n && r.frame == (p.frame + 1) % n
    ensures r.dragging == p.dragging && r.dragOffset == p.dragOffset && r.exited == p.exited
    ensures r.pos.y == p.pos.y
    ensures p.dragging ==> r.pos == p.pos
    ensures p.lastState != Sleeping ==> r.lastState != Sleeping
    ensures p.state == Idle ==>
              && r.state == (if Fires(draw) then Sleeping else Idle)
              && r.lastState == (if Fires(draw) then Idle else p.lastState)
              && r.pos == p.pos && r.walkRight == p.walkRight
    ensures p.state == Sleeping ==>
              && r.state == (if !Fires(draw) then Sleeping else if p.lastState == Idle then Idle else Walking)
              && r.lastState == p.lastState
              && r.pos == p.pos && r.walkRight == p.walkRight
    ensures p.state == Walking && Fires(draw) ==>
              && r.state == Sleeping && r.lastState == Walking
              && r.pos == p.pos && r.walkRight == (p.walkRight != Fires(turnDraw))
    ensures p.state == Walking && !Fires(draw) ==>
              var m := MoveWindow(cfg, p);
              && r.state == Walking && r.lastState == p.lastState
              && r.pos == m.pos && r.walkRight == (m.walkRight != Fires(turnDraw))
  {
    match p.state
    case Idle =>
      var q := p.(frame := (p.frame + 1) % cfg.happyLen);
      if Fires(draw) then q.(lastState := Idle, state := Sleeping) else q
    case Sleeping =>
      var q := p.(frame := (p.frame + 1) % cfg.sleepLen);
      if Fires(draw) then q.(state := if p.lastState == Idle then Idle else Walking) else q
    case Walking =>
      var q := p.(frame := if p.walkRight then (p.frame + 1) % cfg.walkRightLen
                           else (p.frame + 1) % cfg.walkLeftLen);
      var s := if Fires(draw) then q.(lastState := Walking, state := Sleeping) else MoveWindow(cfg, q);
      if Fires(turnDraw) then s.(walkRight := !s.walkRight) else s
  }

  /** Of the values the random source can give a tick's first draw, exactly
      two make the pet leave its state: falling asleep from Idle or Walking
      happens with probability 2/500 per tick, waking up with 2/350. */
  lemma StateChangeOdds(cfg: Config, p: Pet, turnDraw: int)
    requires cfg.Valid()
    ensures DrawRange(p.state) == (if p.state == Sleeping then 350 else 500)
    ensures var leaving := set d | 0 <= d < DrawRange(p.state) && Tick(cfg, p, d, turnDraw).state != p.state;
            leaving == {0, 1} && |leaving| == 2
  {
  }

  /** Of the values the random source can give a walking tick's second
      draw, exactly two reverse the direction the tick would otherwise leave
      the pet facing: turning round happens with probability 2/500 per tick. */
  lemma TurnOdds(cfg: Config, p: Pet, draw: int)
    requires cfg.Valid() && p.state == Walking
    ensures var unturned := Tick(cfg, p, draw, FireBelow).walkRight;
            var turning := set t | 0 <= t < TurnDrawRange && Tick(cfg, p, draw, t).walkRight != unturned;
            turning == {0, 1} && |turning| == 2
  {
  }

  /** The frame a tick stores is in range for the sequence it advanced, and
      after a tick that keeps state and direction the drawn frame is the
      next one of that sequence, cyclically. */
  lemma TickAdvancesDrawnFrame(cfg: Config, p: Pet, draw: int, turnDraw: int)
    requires cfg.Valid()
    requires var r := Tick(cfg, p, draw, turnDraw);
             r.state == p.state && r.walkRight == p.walkRight
    ensures var s := SequenceFor(p.state, p.walkRight);
            var before := CurrentFrame(cfg, p);
            var after := CurrentFrame(cfg, Tick(cfg, p, draw, turnDraw));
            after.sequence == s
            && after.index == (if before.index + 1 == cfg.Len(s) then 0 else before.index + 1)
  {
    var n := cfg.Len(SequenceFor(p.state, p.walkRight));
    SuccessorMod(p.frame, n);
  }

  /** Reducing the successor of a counter is the cyclic successor of the
      reduced counter. */
  lemma SuccessorMod(f: nat, n: nat)
    requires n > 0
    ensures ((f + 1) % n) % n == (if f % n + 1 == n then 0 else f % n + 1)
  {
    var q, r := f / n, f % n;
    if r + 1 == n {
      ModUnique(f + 1, n, q + 1, 0);
    } else {
      ModUnique(f + 1, n, q, r + 1);
    }
    ModUnique((f + 1) % n, n, 0, (f + 1) % n);
  }

  /** Euclidean division has a unique quotient and remainder. */
  lemma ModUnique(a: int, n: int, q: int, r: int)
    requires n > 0 && 0 <= r < n && a == q * n + r
    ensures a % n == r
  {
    var q0, r0 := a / n, a % n;
    assert (q - q0) * n == r0 - r;
    NoSmallMultiple(q - q0, n);
  }

  /** The only multiple of `n` strictly between `-n` and `n` is zero. */
  lemma NoSmallMultiple(k: int, n: int)
    requires n > 0 && -n < k * n < n
    ensures k == 0
  {
  }
}
