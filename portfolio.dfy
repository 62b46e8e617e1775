/**
 The navigation state of the portfolio page: which section the scroll-spy
 highlights and whether the narrow-viewport menu is open.

 DOM queries are inputs here: for every section id the caller passes the
 measurement of its element, or None when the element is not in the document.
 The smooth scroll that a section selection requests is recorded in a ghost
 log of requested ids.
 */
module Portfolio {

  datatype Option<T> = None | Some(value: T)

  /** Top offset and height of a rendered section element, in pixels. */
  datatype Measure = Measure(top: int, height: int)

  /** The section ids, in the order the scroll-spy tries them. */
  const Sections: seq<string> := ["home", "about", "experience", "contact"]

  /** The allowance for the fixed header that is added to the scroll offset. */
  const HeaderAllowance: int := 100

  /** The section shown before any scroll event. */
  const InitialSection: string := "home"

  /** The document offset the scroll-spy tests: the scroll offset below the fixed header. */
  function Probe(scrollY: int): int
  {
    scrollY + HeaderAllowance
  }

  /** A section contains the probe when the probe lies in [top, top + height). */
  predicate Contains(m: Measure, probe: int)
  {
    m.top <= probe < m.top + m.height
  }

  /** A present element whose interval contains the probe; a missing one never does. */
  predicate Hits(m: Option<Measure>, probe: int)
  {
    m.Some? && Contains(m.value, probe)
  }

  /**
   The position of the first measurement, in order, that contains the probe,
   or None when none does.
   */
  function FirstHit(ms: seq<Option<Measure>>, probe: int): (r: Option<nat>)
    ensures r.None? <==> forall j :: 0 <= j < |ms| ==> !Hits(ms[j], probe)
    ensures r.Some? ==> r.value < |ms| && Hits(ms[r.value], probe)
    ensures r.Some? ==> forall j :: 0 <= j < r.value ==> !Hits(ms[j], probe)
    ensures r.Some? ==> ms[r.value].value.height > 0
  {
    if ms == [] then None
    else if Hits(ms[0], probe) then Some(0)
    else match FirstHit(ms[1..], probe)
      case None => None
      case Some(i) => Some(i + 1)
  }

  /**
   The section the scroll-spy makes active: the id of the first hit, or the
   current section when nothing contains the probe.
   */
  function Resolve(ids: seq<string>, ms: seq<Option<Measure>>, probe: int, current: string): (r: string)
    requires |ids| == |ms|
    ensures r == current || r in ids
    ensures (forall j :: 0 <= j < |ms| ==> !Hits(ms[j], probe)) ==> r == current
  {
    match FirstHit(ms, probe)
    case None => current
    case Some(i) => ids[i]
  }

  /** A hit with no hit before it is the one FirstHit reports. */
  lemma FirstHitWins(ms: seq<Option<Measure>>, probe: int, i: nat)
    requires i < |ms| && Hits(ms[i], probe)
    requires forall j :: 0 <= j < i ==> !Hits(ms[j], probe)
    ensures FirstHit(ms, probe) == Some(i)
  {
  }

  /** The scroll-spy makes the first section containing the probe active. */
  lemma ResolveFirstHit(ids: seq<string>, ms: seq<Option<Measure>>, probe: int, current: string, i: nat)
    requires |ids| == |ms|
    requires i < |ms| && Hits(ms[i], probe)
    requires forall j :: 0 <= j < i ==> !Hits(ms[j], probe)
    ensures Resolve(ids, ms, probe, current) == ids[i]
  {
    FirstHitWins(ms, probe, i);
  }

  function Remove<T>(s: seq<T>, k: nat): (r: seq<T>)
    requires k < |s|
    ensures |r| == |s| - 1
    ensures forall j :: 0 <= j < k ==> r[j] == s[j]
    ensures forall j :: k <= j < |r| ==> r[j] == s[j + 1]
  {
    s[..k] + s[k + 1..]
  }

  /**
   A section whose element is missing makes no difference: the result is the
   one obtained with that section taken out of the list.
   */
  lemma MissingSectionSkipped(ids: seq<string>, ms: seq<Option<Measure>>, k: nat, probe: int, current: string)
    requires |ids| == |ms| && k < |ms|
    requires ms[k].None?
    ensures Resolve(ids, ms, probe, current) == Resolve(Remove(ids, k), Remove(ms, k), probe, current)
  {
    var ms' := Remove(ms, k);
    match FirstHit(ms, probe)
    case None =>
      forall j | 0 <= j < |ms'| ensures !Hits(ms'[j], probe) {
        if j >= k { assert ms'[j] == ms[j + 1]; }
      }
    case Some(i) =>
      if i < k {
        FirstHitWins(ms', probe, i);
      } else {
        assert i != k;
        forall j | 0 <= j < i - 1 ensures !Hits(ms'[j], probe) {
          if j >= k { assert ms'[j] == ms[j + 1]; }
        }
        FirstHitWins(ms', probe, i - 1);
      }
  }

  /** The values of the two state fields, as one record. */
  datatype View = View(activeSection: string, menuOpen: bool)

  /** What handleScroll leaves behind. */
  function Scrolled(v: View, scrollY: int, ms: seq<Option<Measure>>): (r: View)
    requires |ms| == |Sections|
    ensures r.menuOpen == v.menuOpen
  {
    v.(activeSection := Resolve(Sections, ms, Probe(scrollY), v.activeSection))
  }

  /**
   In raw scroll coordinates: the first present section whose interval holds
   the scroll offset plus 100 becomes active, whatever was active before.
   */
  lemma ScrollActivatesSection(v: View, scrollY: int, ms: seq<Option<Measure>>, i: nat)
    requires |ms| == |Sections| && i < |ms|
    requires ms[i].Some? && Contains(ms[i].value, scrollY + 100)
    requires forall j :: 0 <= j < i ==> !Hits(ms[j], scrollY + 100)
    ensures Scrolled(v, scrollY, ms) == View(Sections[i], v.menuOpen)
  {
    ResolveFirstHit(Sections, ms, Probe(scrollY), v.activeSection, i);
  }

  /** What the menu button leaves behind. */
  function Toggled(v: View): (r: View)
    ensures r.activeSection == v.activeSection
    ensures r.menuOpen != v.menuOpen
  {
    v.(menuOpen := !v.menuOpen)
  }

  /** What selecting a section leaves behind; present says whether its element exists. */
  function Selected(v: View, present: bool): (r: View)
    ensures r.activeSection == v.activeSection
    ensures present ==> !r.menuOpen
    ensures !present ==> r == v
  {
    if present then v.(menuOpen := false) else v
  }

  lemma ToggleTwiceRestores(v: View)
    ensures Toggled(Toggled(v)) == v
  {
  }

  /** A handler invocation, with the DOM answers it receives as inputs. */
  datatype Event =
    | Scroll(scrollY: int, ms: seq<Option<Measure>>)
    | Toggle
    | Select(sectionId: string, present: bool)

  /** An event whose scroll measurements cover every section. */
  predicate WellFormed(e: Event)
  {
    e.Scroll? ==> |e.ms| == |Sections|
  }

  function Step(v: View, e: Event): View
    requires WellFormed(e)
  {
    match e
    case Scroll(y, ms) => Scrolled(v, y, ms)
    case Toggle => Toggled(v)
    case Select(_, present) => Selected(v, present)
  }

  function Run(v: View, es: seq<Event>): View
    requires forall i :: 0 <= i < |es| ==> WellFormed(es[i])
    decreases es
  {
    if es == [] then v else Run(Step(v, es[0]), es[1..])
  }

  /** No sequence of handler calls leads the active section outside the fixed list. */
  lemma {:induction false} RunKeepsSection(v: View, es: seq<Event>)
    requires forall i :: 0 <= i < |es| ==> WellFormed(es[i])
    requires v.activeSection in Sections
    ensures Run(v, es).activeSection in Sections
    decreases es
  {
    if es != [] {
      RunKeepsSection(Step(v, es[0]), es[1..]);
    }
  }

  /** The page's state and its three handlers. */
  class NavState {
    var activeSection: string
    var menuOpen: bool
    /** The ids for which a smooth scroll was requested, oldest first. */
    ghost var scrollRequests: seq<string>

    ghost predicate Valid()
      reads this
    {
      activeSection in Sections
    }

    function Snapshot(): View
      reads this
    {
      View(activeSection, menuOpen)
    }

    constructor ()
      ensures Valid()
      ensures activeSection == InitialSection && !menuOpen
      ensures scrollRequests == []
    {
      activeSection := InitialSection;
      menuOpen := false;
      scrollRequests := [];
    }

    /**
     The scroll-spy: tries the sections in order and makes the first one whose
     element contains the probe active; keeps the current section otherwise.
     */
    method HandleScroll(scrollY: int, ms: seq<Option<Measure>>)
      requires Valid()
      requires |ms| == |Sections|
      modifies this`activeSection
      ensures Valid()
      ensures Snapshot() == Scrolled(old(Snapshot()), scrollY, ms)
    {
      var probe := scrollY + HeaderAllowance;
      var i := 0;
      while i < |Sections|
        invariant 0 <= i <= |Sections|
        invariant activeSection == old(activeSection)
        invariant forall j :: 0 <= j < i ==> !Hits(ms[j], probe)
      {
        if ms[i].Some? {
          var m := ms[i].value;
          if probe >= m.top && probe < m.top + m.height {
            activeSection := Sections[i];
            ResolveFirstHit(Sections, ms, probe, old(activeSection), i);
            break;
          }
        }
        i := i + 1;
      }
    }

    /** The menu button: flips whether the menu is open. */
    method ToggleMenu()
      modifies this`menuOpen
      ensures Snapshot() == Toggled(old(Snapshot()))
    {
      menuOpen := !menuOpen;
    }

    /**
     Selecting a section: when its element exists, requests a scroll to it and
     closes the menu; when it does not, does nothing.
     */
    method ScrollToSection(sectionId: string, present: bool)
      modifies this`menuOpen, this`scrollRequests
      ensures Snapshot() == Selected(old(Snapshot()), present)
      ensures scrollRequests == if present then old(scrollRequests) + [sectionId] else old(scrollRequests)
    {
      if present {
        scrollRequests := scrollRequests + [sectionId];
        menuOpen := false;
      }
    }

    /** Runs one handler; the state it reaches is the one Step describes. */
    method Dispatch(e: Event)
      requires Valid() && WellFormed(e)
      modifies this`activeSection, this`menuOpen, this`scrollRequests
      ensures Valid()
      ensures Snapshot() == Step(old(Snapshot()), e)
    {
      match e
      case Scroll(y, ms) => HandleScroll(y, ms);
      case Toggle => ToggleMenu();
      case Select(id, present) => ScrollToSection(id, present);
    }
  }

  /** A client: open the menu, then pick the contact section. */
  method MenuScenario()
  {
    var nav := new NavState();
    assert nav.activeSection == "home" && !nav.menuOpen;
    nav.ToggleMenu();
    assert nav.menuOpen;
    nav.ScrollToSection("contact", true);
    assert !nav.menuOpen && nav.activeSection == "home";
    assert nav.scrollRequests == ["contact"];
  }

  /** The layout with four stacked 800-pixel sections and header allowance 100. */
  lemma StackedLayoutExample(current: string)
    ensures var ms := [Some(Measure(0, 800)), Some(Measure(800, 800)),
                       Some(Measure(1600, 800)), Some(Measure(2400, 800))];
            Resolve(Sections, ms, Probe(750), current) == "about" &&
            Resolve(Sections, ms, Probe(2350), current) == "contact" &&
            Resolve(Sections, ms, Probe(-1000), current) == current
  {
    var ms := [Some(Measure(0, 800)), Some(Measure(800, 800)),
               Some(Measure(1600, 800)), Some(Measure(2400, 800))];
    ResolveFirstHit(Sections, ms, Probe(750), current, 1);
    ResolveFirstHit(Sections, ms, Probe(2350), current, 3);
  }
}
