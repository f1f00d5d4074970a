/** `setupVideoPlayer` in script.js: the play-button overlay over a `<video>`
    and the element's native controls, kept in step by four DOM events. */
module VideoPlayer {

  /** The overlay's inline `display`: `Unset` until a handler first writes it
      (the stylesheet decides until then). */
  datatype Display = Unset | Hidden | Flex

  /** `overlay.style.display` and `video.controls`. */
  datatype Ui = Ui(display: Display, controls: bool)

  /** The events the handlers listen to; `Pause` carries `video.seeking`. */
  datatype Event = Click | Play | Pause(seeking: bool) | Ended

  /** The intended coupling: the overlay is hidden exactly when the native
      controls are on, and a handler has taken charge of the overlay. */
  predicate Synced(u: Ui)
  {
    u.display != Unset && (u.display == Hidden <==> u.controls)
  }

  /** A pause that happens while seeking is ignored; every other event acts. */
  predicate Acts(e: Event)
  {
    !(e.Pause? && e.seeking)
  }

  /** One handler run. The `play()` promise and its muted retry on a click are
      asynchronous media behaviour and are not part of the state. */
  function Step(u: Ui, e: Event): (r: Ui)
    ensures Acts(e) ==> Synced(r)
    ensures !Acts(e) ==> r == u
    ensures r.controls <==> (if Acts(e) then e.Click? || e.Play? else u.controls)
  {
    match e
    case Click => Ui(Hidden, true)
    case Play => Ui(Hidden, true)
    case Pause(seeking) => if !seeking then Ui(Flex, false) else u
    case Ended => Ui(Flex, false)
  }

  /** Every event keeps the overlay and the controls in step. */
  lemma StepPreservesSync(u: Ui, e: Event)
    requires Synced(u)
    ensures Synced(Step(u, e))
  {
  }

  /** Repeating an event changes nothing more. */
  lemma StepIdempotent(u: Ui, e: Event)
    ensures Step(Step(u, e), e) == Step(u, e)
  {
  }

  /** The handlers run on a sequence of events, in order. */
  function Run(u: Ui, es: seq<Event>): (r: Ui)
    decreases |es|
  {
    if es == [] then u else Run(Step(u, es[0]), es[1..])
  }

  lemma {:induction false} RunPreservesSync(u: Ui, es: seq<Event>)
    requires Synced(u)
    ensures Synced(Run(u, es))
    decreases |es|
  {
    if es != [] {
      StepPreservesSync(u, es[0]);
      RunPreservesSync(Step(u, es[0]), es[1..]);
    }
  }

  /** Whatever the starting state, once any event other than a seeking pause
      has been handled the overlay and controls are in step from then on. */
  lemma {:induction false} RunEstablishesSync(u: Ui, es: seq<Event>, k: nat)
    requires k < |es| && Acts(es[k])
    ensures Synced(Run(u, es))
    decreases |es|
  {
    if k == 0 {
      RunPreservesSync(Step(u, es[0]), es[1..]);
    } else {
      RunEstablishesSync(Step(u, es[0]), es[1..], k - 1);
    }
  }

  /** The outcome of a run is decided by its last acting event alone: the
      seeking pauses after it, and everything before it, do not matter. */
  lemma {:induction false} RunDecidedByLastAct(u: Ui, v: Ui, pre: seq<Event>, e: Event, seeks: seq<Event>)
    requires Acts(e)
    requires forall i :: 0 <= i < |seeks| ==> !Acts(seeks[i])
    ensures Run(u, pre + [e] + seeks) == Step(v, e)
    decreases |pre|
  {
    if pre == [] {
      assert pre + [e] + seeks == [e] + seeks;
      RunSkipsSeeks(Step(u, e), seeks);
    } else {
      assert (pre + [e] + seeks)[1..] == pre[1..] + [e] + seeks;
      RunDecidedByLastAct(Step(u, pre[0]), v, pre[1..], e, seeks);
    }
  }

  lemma {:induction false} RunSkipsSeeks(u: Ui, seeks: seq<Event>)
    requires forall i :: 0 <= i < |seeks| ==> !Acts(seeks[i])
    ensures Run(u, seeks) == u
    decreases |seeks|
  {
    if seeks != [] {
      RunSkipsSeeks(u, seeks[1..]);
    }
  }

  /** A player as `setupVideoPlayer` leaves it: handlers are attached only
      when both the video element and its overlay were found. */
  datatype Player = Player(wired: bool, ui: Ui)

  function SetupVideoPlayer(videoFound: bool, overlayFound: bool, initial: Ui): (p: Player)
    ensures p.wired <==> videoFound && overlayFound
    ensures p.ui == initial
  {
    Player(videoFound && overlayFound, initial)
  }

  /** Delivering an event: a player without handlers does not react. */
  function Dispatch(p: Player, e: Event): (r: Player)
    ensures r.wired == p.wired
    ensures !p.wired ==> r == p
    ensures p.wired ==> r.ui == Step(p.ui, e)
    ensures p.wired && Acts(e) ==> Synced(r.ui)
    ensures p.wired && !Acts(e) ==> r == p
  {
    if p.wired then p.(ui := Step(p.ui, e)) else p
  }
}
