/** The two `scroll` handlers of script.js that restyle the page: the navbar
    background switch and the floating call-to-action button. The DOM reads
    (`pageYOffset`, `scrollY`, `offsetHeight`, `offsetTop`, `innerHeight`,
    `scrollHeight`) are parameters. */
module ScrollEffects {
  import opened Optional

  // ---------------------------------------------------------------------------
  // Navbar

  /** Past this many pixels the navbar turns nearly opaque with a shadow. */
  const NavbarThreshold: real := 100.0

  datatype NavbarStyle = NavbarStyle(background: string, boxShadow: string)

  const ScrolledStyle: NavbarStyle := NavbarStyle("rgba(0, 0, 0, 0.95)", "0 4px 20px rgba(0, 0, 0, 0.5)")
  const TopStyle: NavbarStyle := NavbarStyle("rgba(0, 0, 0, 0.9)", "none")

  /** The `#main-nav` element's inline style (`None` when the page has no
      such element) and the script-level `lastScroll`, which the handler
      writes and nothing reads. */
  datatype Navbar = Navbar(style: Option<NavbarStyle>, lastScroll: real)

  /** The navbar `scroll` handler. The source never checks `navbar` for
      `null`: without the element the first style write throws, so the
      handler stops before `lastScroll` is recorded and the state stays as
      it was. */
  function NavbarOnScroll(nav: Navbar, pageYOffset: real): (r: Navbar)
    ensures nav.style.None? ==> r == nav
    ensures nav.style.Some? ==> r.style.Some? && r.lastScroll == pageYOffset
    ensures r.style == Some(ScrolledStyle) <==> nav.style.Some? && pageYOffset > NavbarThreshold
    ensures r.style == Some(TopStyle) <==> nav.style.Some? && pageYOffset <= NavbarThreshold
  {
    match nav.style
    case None => nav
    case Some(_) =>
      var style := if pageYOffset > NavbarThreshold then ScrolledStyle else TopStyle;
      Navbar(Some(style), pageYOffset)
  }

  /** On a page with the navbar, the style depends on the current offset
      only, never on the history. */
  lemma NavbarForgetsHistory(a: Navbar, b: Navbar, pageYOffset: real)
    requires a.style.Some? && b.style.Some?
    ensures NavbarOnScroll(a, pageYOffset) == NavbarOnScroll(b, pageYOffset)
  {
  }

  /** Scrolling further down never turns the scrolled style back off. */
  lemma NavbarMonotone(nav: Navbar, y1: real, y2: real)
    requires y1 <= y2
    requires NavbarOnScroll(nav, y1).style == Some(ScrolledStyle)
    ensures NavbarOnScroll(nav, y2).style == Some(ScrolledStyle)
  {
  }

  /** Without the navbar, scrolling never records an offset. */
  lemma {:induction false} NavbarMissingIsInert(nav: Navbar, offsets: seq<real>)
    requires nav.style.None?
    ensures NavbarOnScrolls(nav, offsets) == nav
    decreases |offsets|
  {
    if |offsets| > 0 {
      NavbarMissingIsInert(nav, offsets[..|offsets| - 1]);
    }
  }

  /** With the navbar, a run of scrolls leaves the element in place and ends
      in the state the last offset alone decides. */
  lemma {:induction false} NavbarRunDecidedByLast(nav: Navbar, offsets: seq<real>)
    requires nav.style.Some?
    requires |offsets| > 0
    ensures NavbarOnScrolls(nav, offsets) == NavbarOnScroll(nav, offsets[|offsets| - 1])
    decreases |offsets|
  {
    var prev := offsets[..|offsets| - 1];
    if |prev| > 0 {
      NavbarRunDecidedByLast(nav, prev);
    }
    NavbarForgetsHistory(NavbarOnScrolls(nav, prev), nav, offsets[|offsets| - 1]);
  }

  /** A run of scroll events, oldest first. */
  function NavbarOnScrolls(nav: Navbar, offsets: seq<real>): Navbar
    decreases |offsets|
  {
    if |offsets| == 0 then nav
    else NavbarOnScroll(NavbarOnScrolls(nav, offsets[..|offsets| - 1]), offsets[|offsets| - 1])
  }

  // ---------------------------------------------------------------------------
  // Floating call-to-action

  /** Hero height assumed when the page has no `#hero` section. */
  const DefaultHeroHeight: real := 500.0

  /** The layout figures the handler reads; an absent section is `None`. */
  datatype Layout = Layout(
    scrollY: real,
    heroHeight: Option<real>,   // `#hero` offsetHeight
    ctaTop: Option<real>,       // `#cta` offsetTop
    scrollHeight: real,         // `document.documentElement.scrollHeight`
    innerHeight: real)          // `window.innerHeight`

  /** The lower edge of the visibility window: the hero height or 500. */
  function HeroBottom(l: Layout): (h: real)
    ensures l.heroHeight.None? ==> h == DefaultHeroHeight
    ensures l.heroHeight.Some? ==> h == l.heroHeight.value
  {
    l.heroHeight.GetOr(DefaultHeroHeight)
  }

  /** The upper edge: where the CTA section starts entering the viewport; with
      no CTA section, the page height stands in for its top. */
  function CtaEntry(l: Layout): (t: real)
    ensures l.ctaTop.None? ==> t == l.scrollHeight - l.innerHeight
    ensures l.ctaTop.Some? ==> t == l.ctaTop.value - l.innerHeight
  {
    l.ctaTop.GetOr(l.scrollHeight) - l.innerHeight
  }

  /** The floating CTA `scroll` handler. `cta` is the button's `visible` class,
      `None` when `#floating-cta` is missing and the handler returns at once. */
  function CtaOnScroll(cta: Option<bool>, l: Layout): (r: Option<bool>)
    ensures r.None? <==> cta.None?
    ensures cta.Some? ==> (r.value <==> HeroBottom(l) < l.scrollY < CtaEntry(l))
  {
    if cta.None? then None
    else
      var show := l.scrollY > HeroBottom(l) && l.scrollY < CtaEntry(l);
      Some(show)
  }

  /** The decision depends only on the layout, not on whether the button was
      visible before. */
  lemma CtaForgetsHistory(l: Layout)
    ensures CtaOnScroll(Some(true), l) == CtaOnScroll(Some(false), l)
  {
  }

  /** Within the hero (or the first 500 pixels when there is none) the button
      is hidden, and also once the CTA section enters the viewport. */
  lemma CtaHiddenOutsideWindow(l: Layout)
    requires l.scrollY <= HeroBottom(l) || CtaEntry(l) <= l.scrollY
    ensures CtaOnScroll(Some(true), l) == Some(false)
  {
  }

  /** A page whose CTA section is too close to the hero never shows the button. */
  lemma CtaNeverShownOnShortPage(l: Layout)
    requires CtaEntry(l) <= HeroBottom(l)
    ensures CtaOnScroll(Some(false), l) == Some(false)
  {
  }

  /** The scroll positions that show the button form an interval: between two
      showing positions every position shows it. */
  lemma CtaWindowIsInterval(l: Layout, y1: real, y: real, y2: real)
    requires y1 <= y <= y2
    requires CtaOnScroll(Some(false), l.(scrollY := y1)) == Some(true)
    requires CtaOnScroll(Some(false), l.(scrollY := y2)) == Some(true)
    ensures CtaOnScroll(Some(false), l.(scrollY := y)) == Some(true)
  {
  }
}
