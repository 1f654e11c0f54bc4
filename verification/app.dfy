/**
 * The top-level screen switch with its inactivity timeout. Time is a
 * millisecond clock value passed in with each event instead of being read
 * from the system clock; `Tick` stands for one firing of the one-second
 * interval that runs while the game screen is shown.
 */
module App {

  /** Milliseconds without input after which the game screen gives way to the idle screen. */
  const IdleTimeout: int := 120000

  datatype Screen = Idle | Game

  datatype AppState = AppState(screen: Screen, lastActivity: int)

  /** Mounting shows the idle screen and stamps the clock. */
  function Init(now: int): (s: AppState)
    ensures s.screen == Idle && s.lastActivity == now
  {
    AppState(Idle, now)
  }

  /** `handleActivity`: any pointer, touch or key event restamps the clock on either screen. */
  function Activity(s: AppState, now: int): (r: AppState)
    ensures r.screen == s.screen && r.lastActivity == now
  {
    s.(lastActivity := now)
  }

  /** `handleStartGame`: show the game screen and restamp the clock. */
  function StartGame(s: AppState, now: int): (r: AppState)
    ensures r.screen == Game && r.lastActivity == now
  {
    AppState(Game, now)
  }

  /** `handleBackToIdle`: show the idle screen; the clock stamp is kept. */
  function BackToIdle(s: AppState): (r: AppState)
    ensures r.screen == Idle && r.lastActivity == s.lastActivity
  {
    s.(screen := Idle)
  }

  /**
   * One firing of the timeout check. No interval runs on the idle screen; on
   * the game screen it falls back to idle once at least `IdleTimeout`
   * milliseconds have passed since the last stamp.
   */
  function Tick(s: AppState, now: int): (r: AppState)
    ensures r.lastActivity == s.lastActivity
    ensures r.screen == Game <==> s.screen == Game && now - s.lastActivity < IdleTimeout
  {
    if s.screen == Idle then s
    else if now - s.lastActivity >= IdleTimeout then s.(screen := Idle)
    else s
  }

  datatype Event = Input(now: int) | Start(now: int) | Back | Interval(now: int)

  /**
   * Any event in any state: the app wires `Start` only to the idle screen
   * and `Back` only to the game screen, so runs here include more than the
   * app can produce.
   */
  function Step(s: AppState, e: Event): AppState {
    match e
    case Input(now) => Activity(s, now)
    case Start(now) => StartGame(s, now)
    case Back => BackToIdle(s)
    case Interval(now) => Tick(s, now)
  }

  function Run(s: AppState, es: seq<Event>): AppState
    decreases |es|
  {
    if es == [] then s else Run(Step(s, es[0]), es[1..])
  }

  /** On the idle screen the timeout check changes nothing. */
  lemma TickWhileIdle(s: AppState, now: int)
    requires s.screen == Idle
    ensures Tick(s, now) == s
  {
  }

  /** The boundary is inclusive: 119999 ms of quiet keep the game, 120000 ms end it. */
  lemma TimeoutBoundary(s: AppState)
    requires s.screen == Game
    ensures Tick(s, s.lastActivity + 119999) == s
    ensures Tick(s, s.lastActivity + 120000) == s.(screen := Idle)
  {
  }

  /** Input at 119999 ms restarts the wait, so the check at 120000 ms keeps the game. */
  lemma LateInputSuppressesTimeout(s: AppState)
    requires s.screen == Game
    ensures Tick(Activity(s, s.lastActivity + 119999), s.lastActivity + 120000).screen == Game
  {
  }

  /** Only a start moves the idle screen to the game screen. */
  lemma OnlyStartLeavesIdle(s: AppState, e: Event)
    requires s.screen == Idle && Step(s, e).screen == Game
    ensures e.Start?
  {
  }

  /** Only input and a start move the clock stamp; a tick never does. */
  lemma OnlyInputAndStartStamp(s: AppState, e: Event)
    requires Step(s, e).lastActivity != s.lastActivity
    ensures e.Input? || e.Start?
  {
  }

  /** Without a start, the idle screen stays idle through any run of events. */
  lemma {:induction false} IdleWithoutStart(s: AppState, es: seq<Event>)
    requires s.screen == Idle
    requires forall k :: 0 <= k < |es| ==> !es[k].Start?
    ensures Run(s, es).screen == Idle
    decreases |es|
  {
    if es != [] {
      IdleWithoutStart(Step(s, es[0]), es[1..]);
    }
  }

  /** On the idle screen no timeout check fires, however many come. */
  lemma {:induction false} TicksWhileIdle(s: AppState, es: seq<Event>)
    requires s.screen == Idle
    requires forall k :: 0 <= k < |es| ==> es[k].Interval?
    ensures Run(s, es) == s
    decreases |es|
  {
    if es != [] {
      TicksWhileIdle(Step(s, es[0]), es[1..]);
    }
  }

  /**
   * A run of timeout checks alone ends on the game screen exactly when
   * every check came less than `IdleTimeout` after the stamp (an empty run
   * keeps the screen); the stamp never moves.
   */
  lemma {:induction false} TicksAlone(s: AppState, es: seq<Event>)
    requires s.screen == Game
    requires forall k :: 0 <= k < |es| ==> es[k].Interval?
    ensures Run(s, es).lastActivity == s.lastActivity
    ensures Run(s, es).screen == Game <==>
      forall k :: 0 <= k < |es| ==> es[k].now - s.lastActivity < IdleTimeout
    decreases |es|
  {
    if es != [] {
      var t := Step(s, es[0]);
      if t.screen == Game {
        TicksAlone(t, es[1..]);
        assert forall k :: 1 <= k < |es| ==> es[k] == es[1..][k - 1];
      } else {
        TicksWhileIdle(t, es[1..]);
      }
    }
  }
}
