/**
 The motion controller: one autonomous walking step of the window, bouncing
 off the left and right edges of the screen area.
 */
module Motion {
  import opened PetModel

  /** One walking step. A pet being dragged does not move. Otherwise an edge
      the window touches or crosses first pins the window to that edge and
      turns it inwards, and then the window moves `MoveSpeed` pixels in its
      direction. The vertical position never changes. */
  function MoveWindow(cfg: Config, p: Pet): (r: Pet)
    ensures p.dragging ==> r == p
    ensures r == p.(pos := r.pos, walkRight := r.walkRight)
    ensures r.pos.y == p.pos.y
    ensures !p.dragging && p.pos.x <= cfg.screenLeft ==>
              r.walkRight && r.pos.x == cfg.screenLeft + MoveSpeed
    ensures !p.dragging && cfg.screenLeft < p.pos.x && p.pos.x + cfg.windowWidth >= cfg.ScreenRight() ==>
              !r.walkRight && r.pos.x + cfg.windowWidth == cfg.ScreenRight() - MoveSpeed
    ensures !p.dragging && cfg.screenLeft < p.pos.x && p.pos.x + cfg.windowWidth < cfg.ScreenRight() ==>
              r.walkRight == p.walkRight
              && r.pos.x - p.pos.x == (if p.walkRight then MoveSpeed else -MoveSpeed)
  {
    if p.dragging then p
    else
      var (x, right) :=
        if p.pos.x <= cfg.screenLeft then (cfg.screenLeft, true)
        else if p.pos.x + cfg.windowWidth >= cfg.ScreenRight() then (cfg.ScreenRight() - cfg.windowWidth, false)
        else (p.pos.x, p.walkRight);
      p.(pos := Point(if right then x + MoveSpeed else x - MoveSpeed, p.pos.y), walkRight := right)
  }

  /** The band an autonomously walking window stays in: it overshoots either
      edge of the screen area by less than `MoveSpeed` pixels. */
  predicate NearScreen(cfg: Config, x: int) {
    cfg.screenLeft - MoveSpeed < x && x + cfg.windowWidth < cfg.ScreenRight() + MoveSpeed
  }

  /** Whatever the starting position, one undisturbed walking step leaves the
      window in the band around the screen area, provided the window is
      narrower than the screen area. */
  lemma MoveStaysNearScreen(cfg: Config, p: Pet)
    requires !p.dragging && cfg.windowWidth < cfg.screenWidth
    ensures NearScreen(cfg, MoveWindow(cfg, p).pos.x)
  {
  }
}
