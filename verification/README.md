# Landing-page scripts: a Dafny model of their logic

The landing page runs two scripts with logic in them. `script.js` draws an
ambient field of 200 gold particles. The particles drift, get pushed away
from the pointer within 250 pixels, and wrap around the canvas edges.
`script.js` also restyles the navbar past 100 pixels of scroll, shows a
floating call-to-action button between the hero and the CTA section, and
keeps a video's play-button overlay in step with its native controls.
`video-sync.js` rewrites each embedded player's URL: it replaces the first
`autoplay=1` with `autoplay=0`, appends `autoplay=0` when there is no
`autoplay=` key, and replaces the first `muted=1` with `muted=0`. It also
pauses every other player when one is used, and pauses a player when it
scrolls out of view.

This project models that logic as pure functions and proves what the code
promises about it. The modules follow the source:

- `Particles` (`particles.dfy`) covers the `Particle` constructor and `update`, the `ParticleSystem` constructor, `resize`, the mouse handlers and one `animate` frame.
- `ScrollEffects` (`scroll_effects.dfy`) covers the navbar and floating-CTA `scroll` handlers.
- `VideoPlayer` (`video_player.dfy`) covers `setupVideoPlayer` and its overlay/controls state machine.
- `Strings` (`strings.dfy`) covers JavaScript `includes`, `indexOf` and the first-occurrence `replace` with a string pattern and a replacement without `$`.
- `EmbedUrl` (`embed_url.dfy`) covers the iframe `src` rewrite.
- `VideoSync` (`video_sync.dfy`) covers `pauseOtherVideos` and the IntersectionObserver callback.
- `Optional` (`optional.dfy`) holds the `Option` type used for `null` values and missing elements.

Everything the browser supplies is a parameter:

- Numbers are Dafny `real`s.
- `Math.cos`, `Math.sin`, `Math.sqrt` and `Math.atan2` arrive as a `MathLib` of arbitrary total functions. A lemma that needs trigonometry says exactly which identities it needs. `PushLength` needs a unit direction vector. `PushIsAway` needs the polar form of the vector to the pointer.
- `Math.random` is a stream of draws in [0, 1), eight per particle, in source order.
- DOM reads (`scrollY`, `offsetHeight`, `offsetTop`, `innerHeight`, `scrollHeight`, `video.seeking`, whether an element exists) are arguments.
- A posted message is modelled as the index of the receiving player plus its payload.

Two details of the code worth knowing:

- The constructor's ranges are half-open because `Math.random()` never returns 1. For example, `size` is in [0.1, 0.6) and velocity components are in [-0.075, 0.075).
- The intersection callback posts `'pause'` first and then the JSON command, the reverse of `pauseOtherVideos`.

## Model

| member | source | states |
|---|---|---|
| Particles.NewParticle | script.js:53-75 | for draws in [0,1): x in [0,W] (below W when W > 0), y likewise; size in [0.1,0.6); each velocity component in [-0.075,0.075); opacity in [0.02,0.17); angle in [0,2π); angular velocity in [-0.01,0.01); the colour's alpha is the opacity |
| Particles.Drift | script.js:94-96 | the phase advances by exactly the angular velocity, and size, velocity, opacity, colour and angular velocity are untouched |
| Particles.Force | script.js:105 | inside the radius the force is in (0,1]; it is 1 at distance 0 and 0 at distance 250 |
| Particles.ForceStrictlyDecreasing | script.js:105 | the force strictly decreases as the distance grows inside the radius |
| Particles.Repel | script.js:99-112 | only x and y can change, and nothing changes unless both pointer coordinates are non-null and the distance is strictly below 250 |
| Particles.PushLength | script.js:104-111 | when the host's direction is a unit vector, the push moves the particle by exactly the force (a full unit at distance 0) |
| Particles.PushIsAway | script.js:100-111 | when the host's sqrt/atan2/cos/sin agree on the vector to the pointer, the new distance to the pointer is the old distance plus the force: the push is straight away from the pointer |
| Particles.WrapAxis | script.js:115-118 | a coordinate below 0 becomes exactly the bound; one above the bound becomes exactly 0; one in [0, bound] is unchanged; with a non-negative bound the result lies in [0, bound] |
| Particles.WrapFixesExactlyInRange | script.js:115-118 | the wrap is a reset, not a clamp: a coordinate is left alone if and only if it is already in [0, bound] |
| Particles.WrapIdempotent | script.js:115-118 | wrapping twice gives the same result as wrapping once, for any bound |
| Particles.WrapEdges | script.js:115-118 | both axes end inside the field for non-negative sizes; a particle already inside is unchanged; only x and y are written |
| Particles.Update | script.js:92-119 | after an update the particle is inside a field of non-negative size; angle grows by exactly the angular velocity; size, velocity, opacity, colour and angular velocity are unchanged |
| Particles.InertPointer | script.js:99-112 | a pointer with a null coordinate, or one at distance 250 or more from the drifted particle, gives exactly the frame with no pointer |
| Particles.NewSystem | script.js:9-38 | the system holds 200 particles, particle i built by the `Particle` constructor from the canvas sizes and the i-th draws; the canvas sizes are those given; both pointer coordinates are null; with valid draws every particle starts inside the canvas |
| Particles.Resize | script.js:28-31 | resizing changes the canvas size only; particles and pointer are untouched, so some particles may sit outside until the next frame |
| Particles.MouseMove | script.js:18-21 | the pointer becomes engaged at exactly (client x, client y plus the scroll offset); nothing else changes |
| Particles.MouseLeave | script.js:22-25 | both pointer coordinates become null; nothing else changes |
| Particles.LeaveStopsRepulsion | script.js:22-25 | after the pointer leaves, no particle is pushed |
| Particles.MoveRepelsWithinRadius | script.js:18-21 | after a move, a particle is pushed if and only if its distance to the page-coordinate pointer is below 250 |
| Particles.Animate | script.js:40-49 | a frame updates every particle in order against one canvas-size and pointer snapshot; afterwards every particle is inside the canvas and keeps its fixed traits |
| ScrollEffects.NavbarOnScroll | script.js:176-191 | with the navbar present, the scrolled style is applied if and only if the offset exceeds 100, the top style otherwise, and lastScroll records the offset; without `#main-nav` the handler throws before recording anything, so the state is unchanged |
| ScrollEffects.NavbarForgetsHistory | script.js:182-190 | with the navbar present, the state after a scroll depends on the current offset alone |
| ScrollEffects.NavbarMonotone | script.js:182 | scrolling further down never turns the scrolled style back off |
| ScrollEffects.NavbarMissingIsInert | script.js:177-190 | on a page without `#main-nav`, no number of scrolls changes the state: every handler call throws before `lastScroll` is written |
| ScrollEffects.NavbarRunDecidedByLast | script.js:179-191 | with the navbar present, a run of scrolls ends in exactly the state one scroll to the last offset gives |
| ScrollEffects.HeroBottom | script.js:202 | the hero height, or 500 when there is no hero section |
| ScrollEffects.CtaEntry | script.js:203-207 | the CTA section's top minus the viewport height; with no CTA section, the page height minus the viewport height |
| ScrollEffects.CtaOnScroll | script.js:198-212 | with no button nothing happens; otherwise the button is visible if and only if hero bottom < scrollY < CTA top − viewport height |
| ScrollEffects.CtaForgetsHistory | script.js:207-211 | the decision does not depend on whether the button was visible before |
| ScrollEffects.CtaHiddenOutsideWindow | script.js:207-211 | at or above the hero bottom, and from the CTA entry point down, the button is hidden |
| ScrollEffects.CtaNeverShownOnShortPage | script.js:207 | when the CTA entry point is not below the hero bottom, the button is never shown |
| ScrollEffects.CtaWindowIsInterval | script.js:207 | the scroll positions that show the button form an interval |
| VideoPlayer.Step | script.js:317-354 | click and play hide the overlay and turn controls on; ended and a non-seeking pause show the overlay and turn controls off; a pause while seeking changes nothing |
| VideoPlayer.StepPreservesSync | script.js:317-354 | every event preserves "overlay hidden if and only if controls on" |
| VideoPlayer.StepIdempotent | script.js:338-354 | handling the same event twice in a row gives the same result as handling it once |
| VideoPlayer.RunPreservesSync | script.js:317-354 | any sequence of events keeps the overlay and controls in step once they are |
| VideoPlayer.RunEstablishesSync | script.js:317-354 | from any starting state, once an event other than a seeking pause has been handled, overlay and controls are in step |
| VideoPlayer.RunDecidedByLastAct | script.js:343-349 | the state after a run depends only on its last event that is not a seeking pause |
| VideoPlayer.RunSkipsSeeks | script.js:345 | a run of pauses that all happen while seeking changes nothing |
| VideoPlayer.SetupVideoPlayer | script.js:307-315 | handlers are attached if and only if both the video element and its overlay exist |
| VideoPlayer.Dispatch | script.js:315-356 | a player without handlers ignores events; a wired player's overlay and controls become exactly what its handler for the event sets, which is in step after any event that is not a seeking pause |
| Strings.IndexFrom | video-sync.js:17-18 | returns the first occurrence at or after the start index, with no occurrence between the start and the result; no result means no occurrence from the start on |
| Strings.IndexOf | video-sync.js:17-18 | returns the first occurrence of the pattern; none means the pattern does not occur |
| Strings.Contains | video-sync.js:17 | `includes` holds if and only if the pattern occurs somewhere |
| Strings.ReplaceFirst | video-sync.js:18 | with no occurrence the string is unchanged; otherwise only the first occurrence is replaced and the text before and after it is kept |
| Strings.IndexOfByOccurrences | video-sync.js:25-26 | two strings with the same occurrences of a pattern have the same first occurrence |
| Strings.ReplaceLastChar | video-sync.js:18 | replacing `key=1` with `key=0` rewrites that one digit and nothing else |
| Strings.SwapKeepsOccurrences | video-sync.js:18 | changing a character that is foreign to a pattern into another foreign character neither creates nor destroys an occurrence of it |
| Strings.AppendKeepsOccurrences | video-sync.js:21 | appending text that cannot straddle the seam or contain the pattern neither creates nor destroys an occurrence of it |
| EmbedUrl.ForceAutoplayOffSpec | video-sync.js:17-22 | without `autoplay=` the result is src + (`&` if src has `?`, else `?`) + `autoplay=0`; with `autoplay=1` only the digit of its first occurrence becomes 0, so the length is kept and nothing is appended; with another autoplay value src is unchanged; the result always has `autoplay=`; every `muted=` and `muted=1` stays where it was |
| EmbedUrl.OnHasKey | video-sync.js:17-20 | a URL with `autoplay=1` already has `autoplay=`, so the append branch is skipped after a replace |
| EmbedUrl.ReplaceCase | video-sync.js:17-19 | replacing the first `autoplay=1` keeps the key and every `muted` parameter |
| EmbedUrl.AppendCase | video-sync.js:20-22 | appending the parameter adds the key and cannot create or remove a `muted` parameter |
| EmbedUrl.MutedOnSurvivesAutoplaySwap | video-sync.js:18-25 | switching autoplay off never turns a `muted=1` into something else, because the two parameters cannot share their digit |
| EmbedUrl.ForceAutoplayOffFirstOnly | video-sync.js:18 | a second `autoplay=1` survives the rewrite: `replace` changes the first occurrence only |
| EmbedUrl.LaterOnSurvives | video-sync.js:18 | two occurrences of `autoplay=1` never overlap, so changing the earlier one's digit leaves the later one whole |
| EmbedUrl.MuteOffSpec | video-sync.js:25-27 | only the digit of the first `muted=1` becomes 0; without `muted=1` the URL is unchanged; every `autoplay=` and `muted=` keeps its place |
| EmbedUrl.RewriteSpec | video-sync.js:14-27 | the rewritten URL always has `autoplay=`; it has a `muted=` parameter if and only if the original has one; the first `muted=1` of the original reads `muted=0`; without `muted=1` only the autoplay part acts; a URL with a non-1 autoplay value and no `muted=1` is unchanged; the length grows by 11 exactly when the key was missing |
| EmbedUrl.SrcAssignment | video-sync.js:30-32 | the value assigned is the rewritten URL; `src` is reassigned only when that differs from the old URL, and the new URL always has `autoplay=` |
| EmbedUrl.SrcAssignmentCases | video-sync.js:14-32 | an iframe gets a new `src` if and only if its URL lacks `autoplay=`, or has `autoplay=1`, or has `muted=1` |
| EmbedUrl.AutoplayDigitChanges | video-sync.js:17-19 | a URL with `autoplay=1` always changes |
| EmbedUrl.MutedDigitChanges | video-sync.js:25-27 | a URL with `muted=1` always changes |
| VideoSync.PauseOtherVideos | video-sync.js:58-76 | the players reached are exactly the indices in [0, n) other than the active one, and the active one gets nothing; each player reached gets the JSON `pauseVideo` command and then `'pause'`; players are reached in increasing index order; there are 2(n−1) messages when the active index is in range, 2n otherwise |
| VideoSync.AppendPair | video-sync.js:63-70 | sending one more command pair keeps the pairing and adds exactly that player to the players reached |
| VideoSync.PairsDeliverBoth | video-sync.js:63-70 | in a paired batch, every player reached gets the first payload immediately followed by the second |
| VideoSync.LeavingFramesSnoc | video-sync.js:80-83 | a further entry adds its player to the players to pause if and only if it leaves the view and has a window |
| VideoSync.LeavingOrder | video-sync.js:80-83 | one player per entry that is not intersecting and has a window, in entry order, and never more players than entries |
| VideoSync.LeavingOrderCoversFrames | video-sync.js:80-83 | the ordered list of players to pause holds exactly the players of the set `LeavingFrames` |
| VideoSync.AppendInOrder | video-sync.js:84-89 | one more entry's `'pause'`+JSON pair extends the ordered pairing by that player |
| VideoSync.OnIntersection | video-sync.js:79-95 | exactly two messages per entry that is not intersecting and has a window, in entry order: pair k goes to the k-th such entry's player, `'pause'` and then the JSON command; no other player gets anything |

The functions `EmbedUrl.ForceAutoplayOff`, `EmbedUrl.MuteOff` and `EmbedUrl.Rewrite` model video-sync.js:17-22, 25-27 and 14-27 directly. Each one's contract lives in its lemma: `ForceAutoplayOffSpec`, `MuteOffSpec` and `RewriteSpec`.

## Left out

- Canvas creation, `clearRect`, the drawing of particles and the random shimmer (script.js:4-7, 41, 77-90) are rendering side effects, so they are not modelled.
- The `requestAnimationFrame` loop and the event-listener registration (script.js:15-25, 48, 358-371; video-sync.js:7, 36-50) are host scheduling. A frame is the `Animate` method. A click or focus on a player is a call of `PauseOtherVideos` with that player's index.
- The constructor's first `animate(0)` call is not folded into `NewSystem`. It is simply the first `Animate`.
- The `time` argument of `update` is not a parameter, because the source never reads it.
- Floating point is not modelled: there is no rounding, NaN or Infinity, and values are exact reals. `Math.PI` is the decimal 3.141592653589793, the shortest decimal that rounds to the double nearest π.
- The colour string `rgba(212, 175, 55, opacity)` is kept as a structured value, because number-to-string formatting is not modelled.
- `trackMetaEvent` and the PageView/Contact calls (script.js:252-304, 163-172, 364-370) are left out because they are network I/O with cookie, `navigator` and `location` reads.
- The `video.play()` promise and its muted retry (script.js:326-333) are asynchronous browser media behaviour and are left out. A click is modelled by its immediate overlay and controls effect only.
- The glass-card tilt and the stagger delays (script.js:214-246) are left out: they are number-to-CSS formatting.
- Smooth scroll and the fade-in observer (script.js:127-161) are left out as pure DOM wiring.
- shader-animation.js and scroll-animation.js are not part of this model: they are WebGL setup and one DOM class toggle.
- `postMessage` delivery and its cross-origin failures (video-sync.js:61-73, 84-91) are left out. Only the receiving player and the order of payloads are modelled.
- The `querySelectorAll('iframe[src*="mediadelivery.net"]')` selection and the container lookup (video-sync.js:10, 37-39, 82, 98) are DOM queries. The model receives the iframes and entries already selected.
- Particles.PushIsAway: it assumes the host's `sqrt`, `atan2`, `cos` and `sin` agree on the vector to the pointer (the `Polar` predicate), because real trigonometry is not modelled. PushLength likewise assumes a unit direction.
- `console.log` calls are left out.
- Strings.ReplaceFirst: inserts the replacement verbatim. JavaScript's `replace` also expands `$$`, `$&`, `` $` `` and `$'` in a string replacement; this is not modelled because the two replacements the code uses (`autoplay=0`, `muted=0`) contain no `$`.
- The navbar handler's TypeError without `#main-nav` is modelled only as the handler stopping with the state unchanged; the exception itself reaching the console is not modelled.
