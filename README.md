# Portfolio page navigation state

The portfolio page (`portfolio-website/app/page.tsx`) is almost all markup and
static copy. Its one piece of behaviour is the navigation state of the
`Portfolio` component. That state has two fields:

- `activeSection` is the section the navigation bar highlights. It starts as `"home"`.
- `isMenuOpen` says whether the narrow-viewport menu is open. It starts closed.

Three handlers change this state:

- **Scroll-spy** (`handleScroll`). The probe is the scroll offset plus a
  100-pixel header allowance. The handler tries `home`, `about`, `experience`
  and `contact` in that order and skips sections whose element is missing. It
  makes active the first section whose interval `[offsetTop, offsetTop +
  offsetHeight)` contains the probe. If no section contains it, the active
  section stays as it was.
- **Menu toggle** (the menu button's click handler). It flips `isMenuOpen`.
- **Section selection** (`scrollToSection`). If the target element exists, it
  requests a smooth scroll to it and closes the menu. If not, it does nothing.

The model is in `portfolio.dfy`, module `Portfolio`:

- The class `NavState` holds the two fields. Its methods `HandleScroll`,
  `ToggleMenu` and `ScrollToSection` are the handlers. `HandleScroll` is the
  source's loop with its early exit.
- Each method is proved against a pure function on a `View` record of the two
  fields: `Scrolled`, `Toggled` or `Selected`.
- The first-match search is the recursive function `FirstHit`. `Resolve` adds
  the rule that the current section is kept when nothing matches.
- DOM queries are inputs. For each fixed section id, the caller passes the
  element's `Measure` (top offset and height), or `None` when the element is
  absent. `ScrollToSection` receives a flag saying whether its target element
  exists.
- The smooth-scroll request is recorded in the ghost log `scrollRequests`.

Selecting a section closes the menu only when its element exists: the close
sits inside `if (element)` (page.tsx:15-18). With the element absent,
`Selected` and `ScrollToSection` change nothing.

`Event`, `WellFormed`, `Step`, `Run` and `NavState.Dispatch` have no
counterpart in the page. They are modelling scaffolding that strings the
three handlers into an event sequence, so that `RunKeepsSection` can speak of
any sequence of handler calls.

## Model

| member | source | states |
|---|---|---|
| Portfolio.FirstHit | portfolio-website/app/page.tsx:26-35 | the result is None iff no present section's half-open interval `[top, top+height)` contains the probe; otherwise it is the index of a containing section with no containing section before it, and that section has positive height, so a zero-height section never matches |
| Portfolio.FirstHitWins | portfolio-website/app/page.tsx:26-35 | any containing section with no containing section before it is exactly the one the search reports |
| Portfolio.Resolve | portfolio-website/app/page.tsx:26-37 | the chosen section is either one of the listed ids or the current one, and it is the current one whenever no present section contains the probe (the sticky rule) |
| Portfolio.ResolveFirstHit | portfolio-website/app/page.tsx:26-35 | when several sections contain the probe, the earliest one in declaration order becomes active |
| Portfolio.MissingSectionSkipped | portfolio-website/app/page.tsx:27-28 | a section whose element is missing changes nothing: the outcome equals that of the same list with the section removed |
| Portfolio.Scrolled | portfolio-website/app/page.tsx:22-38 | the scroll handler never changes whether the menu is open |
| Portfolio.ScrollActivatesSection | portfolio-website/app/page.tsx:24-35 | for any scroll offset, when a present section's interval `[top, top+height)` holds the offset plus 100 and no earlier present section's does, the scroll handler makes that section active and leaves the menu flag as it was |
| Portfolio.Toggled | portfolio-website/app/page.tsx:65 | the toggle negates the menu flag and keeps the active section |
| Portfolio.ToggleTwiceRestores | portfolio-website/app/page.tsx:65 | toggling twice restores the original state |
| Portfolio.Selected | portfolio-website/app/page.tsx:13-19 | selection never changes the active section; with the element present the menu ends closed whatever it was before, and with it absent nothing changes |
| Portfolio.RunKeepsSection | portfolio-website/app/page.tsx:10-38 | starting from a listed section, any sequence of scroll, toggle and selection events leaves the active section among home, about, experience and contact |
| Portfolio.NavState.constructor | portfolio-website/app/page.tsx:10-11 | the page starts with `home` active and the menu closed, with no scroll requested |
| Portfolio.NavState.HandleScroll | portfolio-website/app/page.tsx:22-38 | the loop sets the active section to what `Resolve` gives for the probe and the current section, touches nothing else and keeps the section in the fixed list |
| Portfolio.NavState.ToggleMenu | portfolio-website/app/page.tsx:65 | the menu flag becomes its negation and the active section is unchanged |
| Portfolio.NavState.ScrollToSection | portfolio-website/app/page.tsx:13-19 | with the element present, one scroll request for that id is logged and the menu is closed; with it absent, neither field nor the log changes |
| Portfolio.StackedLayoutExample | portfolio-website/app/page.tsx:22-38 | with sections of 800 pixels stacked from 0, offset 750 selects `about`, offset 2350 selects `contact`, and offset -1000 keeps the current section |

## Left out

- Scroll offsets and element measurements are integers. Browsers can report fractional `scrollY`, and floating point is not modelled.
- The DOM queries (`document.getElementById`, `offsetTop`, `offsetHeight`, `window.scrollY`) are not modelled. Their answers are the handlers' parameters.
- The smooth scroll animation (`scrollIntoView`) is not modelled. Only the request is recorded, in the ghost log `scrollRequests`.
- Registering and removing the scroll listener (page.tsx:40-41) is browser lifecycle plumbing and is not modelled.
- `handleEmailClick` and `handleGithubClick` (page.tsx:44-51) are not modelled. They only navigate to a `mailto:` link or open a new window, with no state or logic.
- React rendering is not modelled. That includes batched `setState`, re-render timing, and skipping a re-render when the value is unchanged. Each handler is one atomic update of the two fields.
- The JSX layout, styling, static copy, skill and experience lists, and images (page.tsx:53-617) are presentational and are not modelled.
