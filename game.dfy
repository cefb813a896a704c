/** The pure rules of the main loop: the camera clamp, the contact-damage loop
    against enemies, and the loading / playing / game-over phases. */
module Game {
  import opened Tiles

  /** Milliseconds the loading screen lasts before a new game starts. */
  const LOAD_TIME_MS: int := 1000

  /** Left edge of the visible window, in world pixels, for a player centred at
      centerX in a level of `columns` tile columns. */
  function CameraX(centerX: int, columns: int): (cam: int)
    ensures cam >= 0
    ensures columns * TILE >= WIDTH ==> cam + WIDTH <= columns * TILE
  {
    Max(0, Min(centerX - WIDTH / 2, columns * TILE - WIDTH))
  }

  /** The camera centres the player whenever the centred window lies inside the level,
      and otherwise stops at the level's left or right edge; in a level at least a screen
      wide, the player's centre is always on screen. */
  lemma CameraFollows(centerX: int, columns: int)
    ensures 0 <= centerX - WIDTH / 2 <= columns * TILE - WIDTH ==> CameraX(centerX, columns) == centerX - WIDTH / 2
    ensures centerX - WIDTH / 2 < 0 ==> CameraX(centerX, columns) == 0
    ensures columns * TILE >= WIDTH && centerX - WIDTH / 2 > columns * TILE - WIDTH ==>
              CameraX(centerX, columns) == columns * TILE - WIDTH
    ensures columns * TILE >= WIDTH && 0 <= centerX <= columns * TILE ==>
              CameraX(centerX, columns) <= centerX <= CameraX(centerX, columns) + WIDTH
  {
  }

  /** The two rectangles share pixels (pygame's colliderect, for rectangles of positive size). */
  predicate Overlap(a: Rect, b: Rect)
  {
    a.Left() < b.Right() && b.Left() < a.Right() && a.Top() < b.Bottom() && b.Top() < a.Bottom()
  }

  /** The player's rectangle and health during the contact loop, and whether the loop
      stopped because health ran out. */
  datatype Hurt = Hurt(rect: Rect, health: int, dead: bool)

  /** One enemy contact: touching costs one health point and knocks the player one tile
      away from the enemy's centre (to the right when the centres line up). */
  function Touch(p: Hurt, e: Rect): (q: Hurt)
    ensures !Overlap(p.rect, e) ==> q == p
    ensures Overlap(p.rect, e) ==> q.health == p.health - 1 && (q.dead <==> q.health <= 0)
    ensures Overlap(p.rect, e) ==>
              q.rect == p.rect.(x := q.rect.x) && (q.rect.x == p.rect.x - TILE || q.rect.x == p.rect.x + TILE)
  {
    if Overlap(p.rect, e) then
      var h := p.health - 1;
      Hurt(p.rect.(x := p.rect.x + (if p.rect.CenterX() < e.CenterX() then -TILE else TILE)), h, h <= 0)
    else p
  }

  /** The contact loop over the enemies in order, stopping at the contact that leaves the
      player without health. */
  function AfterContacts(r: Rect, health: int, es: seq<Rect>): (q: Hurt)
    ensures q.dead ==> q.health <= 0
    ensures health - |es| <= q.health <= health
    decreases |es|
  {
    if es == [] then Hurt(r, health, false)
    else
      var p := AfterContacts(r, health, es[..|es| - 1]);
      if p.dead then p else Touch(p, es[|es| - 1])
  }

  /** The contact loop of a frame: for each enemy the player's (current, possibly already
      knocked back) rectangle touches, one health point is lost and the player is pushed
      one tile away; the loop ends early when health reaches 0. */
  method Contacts(r: Rect, health: int, es: seq<Rect>) returns (q: Hurt)
    ensures q == AfterContacts(r, health, es)
  {
    q := Hurt(r, health, false);
    var i := 0;
    while i < |es|
      invariant 0 <= i <= |es|
      invariant q == AfterContacts(r, health, es[..i]) && !q.dead
    {
      assert es[..i + 1][..i] == es[..i];
      if Overlap(q.rect, es[i]) {
        var h := q.health - 1;
        var dx := if q.rect.CenterX() < es[i].CenterX() then -TILE else TILE;
        q := Hurt(q.rect.(x := q.rect.x + dx), h, h <= 0);
        if h <= 0 {
          DeadStaysDead(r, health, es, i + 1);
          return;
        }
      }
      i := i + 1;
    }
    assert es[..i] == es;
  }

  /** Once the loop has stopped on a fatal contact, later enemies change nothing. */
  lemma {:induction false} DeadStaysDead(r: Rect, health: int, es: seq<Rect>, k: int)
    requires 0 <= k <= |es|
    requires AfterContacts(r, health, es[..k]).dead
    ensures AfterContacts(r, health, es) == AfterContacts(r, health, es[..k])
    decreases |es| - k
  {
    if k < |es| {
      assert es[..k + 1][..k] == es[..k];
      DeadStaysDead(r, health, es, k + 1);
    } else {
      assert es[..k] == es;
    }
  }

  /** A touch pushes the player's centre exactly one tile further from the enemy's centre. */
  lemma KnockbackMovesAway(p: Hurt, e: Rect)
    requires Overlap(p.rect, e)
    ensures var d0 := p.rect.CenterX() - e.CenterX();
            var d1 := Touch(p, e).rect.CenterX() - e.CenterX();
            (d0 < 0 ==> d1 == d0 - TILE) && (d0 >= 0 ==> d1 == d0 + TILE)
  {
  }

  /** A player touching no enemy keeps its rectangle and health. */
  lemma {:induction false} NoContactNoHarm(r: Rect, health: int, es: seq<Rect>)
    requires forall i :: 0 <= i < |es| ==> !Overlap(r, es[i])
    ensures AfterContacts(r, health, es) == Hurt(r, health, false)
    decreases |es|
  {
    if es != [] {
      NoContactNoHarm(r, health, es[..|es| - 1]);
    }
  }

  /** The three screens of the game; Loading remembers when it began. */
  datatype Phase = Loading(since: int) | Playing | GameOver

  /** What happens in a frame: a restart request (Enter, or a click on the New Game
      button), the loading clock reading `now`, or the end of a playing frame in which
      the player's top edge is at `top` and the contact loop found health gone. */
  datatype Event = Restart(at: int) | Tick(now: int) | Frame(top: int, dead: bool)

  /** The phase transitions of the main loop. */
  function Step(p: Phase, e: Event): (q: Phase)
    ensures q != p ==> (p.GameOver? && q.Loading?) || (p.Loading? && q.Playing?) || (p.Playing? && q.GameOver?)
    ensures p.Loading? && q.Playing? ==> e.Tick? && e.now - p.since >= LOAD_TIME_MS
    ensures p.Playing? && q.GameOver? <==> p.Playing? && e.Frame? && (e.top > HEIGHT || e.dead)
    ensures p.Loading? && e.Tick? && e.now - p.since >= LOAD_TIME_MS ==> q == Playing
    ensures p.GameOver? && e.Restart? ==> q == Loading(e.at)
    ensures p.GameOver? && q != p ==> e.Restart? && q == Loading(e.at)
  {
    match (p, e)
    case (GameOver, Restart(t)) => Loading(t)
    case (Loading(since), Tick(now)) => if now - since >= LOAD_TIME_MS then Playing else p
    case (Playing, Frame(top, dead)) => if top > HEIGHT || dead then GameOver else p
    case _ => p
  }

  /** From the game-over screen, play resumes only after a restart followed by a loading
      tick at least LOAD_TIME_MS later. */
  lemma {:induction false} PlayingNeedsLoading(p: Phase, es: seq<Event>)
    requires p.GameOver?
    ensures Run(p, es).Playing? ==>
              exists i, j :: 0 <= i < j < |es| && es[i].Restart? && es[j].Tick? && es[j].now - es[i].at >= LOAD_TIME_MS
    decreases |es|
  {
    if es != [] && Run(p, es).Playing? {
      var init := es[..|es| - 1];
      var before := Run(p, init);
      var last := es[|es| - 1];
      if before.Playing? {
        PlayingNeedsLoading(p, init);
        var i, j :| 0 <= i < j < |init| && init[i].Restart? && init[j].Tick? && init[j].now - init[i].at >= LOAD_TIME_MS;
        assert es[i] == init[i] && es[j] == init[j];
      } else {
        assert before.Loading? && last.Tick?;
        LoadingStartedByRestart(p, init);
        var i :| 0 <= i < |init| && init[i] == Restart(before.since);
        assert es[i] == init[i];
        assert es[i].Restart? && es[|es| - 1].Tick? && es[|es| - 1].now - es[i].at >= LOAD_TIME_MS;
      }
    }
  }

  /** A loading phase reached from the game-over screen began with a restart at its start time. */
  lemma {:induction false} LoadingStartedByRestart(p: Phase, es: seq<Event>)
    requires p.GameOver?
    ensures Run(p, es).Loading? ==> exists i :: 0 <= i < |es| && es[i] == Restart(Run(p, es).since)
    decreases |es|
  {
    if es != [] && Run(p, es).Loading? {
      var init := es[..|es| - 1];
      var before := Run(p, init);
      if before.Loading? && Run(p, es) == before {
        LoadingStartedByRestart(p, init);
        var i :| 0 <= i < |init| && init[i] == Restart(before.since);
        assert es[i] == init[i];
      } else {
        assert es[|es| - 1] == Restart(Run(p, es).since);
      }
    }
  }

  /** The phase after a sequence of events, applied in order. Without a restart
      request the game-over screen never changes. */
  function Run(p: Phase, es: seq<Event>): (q: Phase)
    ensures p.GameOver? && (forall k :: 0 <= k < |es| ==> !es[k].Restart?) ==> q == GameOver
    decreases |es|
  {
    if es == [] then p else Step(Run(p, es[..|es| - 1]), es[|es| - 1])
  }
}
