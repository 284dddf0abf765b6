/**
 * The navigation controller: the hamburger menu's open/closed state and the
 * target position of the smooth scroll to an in-page section.
 */
module Navigation {
  import opened Wrappers

  /** Where a click lands, as the menu's listeners see it. */
  datatype ClickTarget =
    | Trigger      // the hamburger button or something inside it
    | NavLink      // a link inside the navigation container
    | InsideNav    // any other point inside the navigation container
    | Outside      // anywhere else on the page

  /** Whether the document-level listener sees the click inside the trigger
      or inside the navigation container. */
  predicate InTrigger(t: ClickTarget) { t == Trigger }
  predicate InNav(t: ClickTarget) { t == NavLink || t == InsideNav }

  class Menu {
    /** Whether the `active` class is on the hamburger and on the nav. */
    var hamburgerActive: bool
    var navActive: bool

    /** The two classes always move together. */
    ghost predicate Valid()
      reads this
    {
      hamburgerActive == navActive
    }

    /** The menu is open when the navigation container is active. */
    function IsOpen(): bool
      reads this
    {
      navActive
    }

    /** The page as loaded: the menu is closed, neither element carries the
        `active` class. */
    constructor ()
      ensures Valid() && !IsOpen()
      ensures !hamburgerActive && !navActive
    {
      hamburgerActive, navActive := false, false;
    }

    /** The trigger's listener toggles both classes. */
    method Toggle()
      requires Valid()
      modifies this
      ensures Valid() && IsOpen() == !old(IsOpen())
    {
      hamburgerActive := !hamburgerActive;
      navActive := !navActive;
    }

    /** A navigation link's listener removes both classes. */
    method Close()
      requires Valid()
      modifies this
      ensures Valid() && !IsOpen()
    {
      hamburgerActive := false;
      navActive := false;
    }

    /** The document's listener closes the menu for a click outside both the
        trigger and the navigation container, and does nothing otherwise. */
    method DocumentClick(t: ClickTarget)
      requires Valid()
      modifies this
      ensures Valid()
      ensures IsOpen() == (old(IsOpen()) && (InTrigger(t) || InNav(t)))
    {
      if !InTrigger(t) && !InNav(t) {
        Close();
      }
    }

    /** One click, dispatched as the page does: the listener on the target
        first, then the document's as the event bubbles up. A click on the
        trigger toggles the menu; a click on a link or outside closes it; any
        other click inside the navigation container leaves it as it was. */
    method Click(t: ClickTarget)
      requires Valid()
      modifies this
      ensures Valid()
      ensures IsOpen() == match t
        case Trigger => !old(IsOpen())
        case NavLink => false
        case InsideNav => old(IsOpen())
        case Outside => false
    {
      match t
      case Trigger => Toggle();
      case NavLink => Close();
      case _ =>
      DocumentClick(t);
    }
  }

  /** The margin, in pixels, left between the header and the section. */
  const ScrollMargin := 20

  /** The scroll position for an in-page link: none when the section does
      not exist, otherwise the section's offset less the header's height
      and the margin. */
  function ScrollTarget(sectionTop: Option<int>, headerHeight: int): (top: Option<int>)
    ensures top.Some? <==> sectionTop.Some?
    ensures top.Some? ==> sectionTop.value - top.value == headerHeight + ScrollMargin
  {
    match sectionTop
    case None => None
    case Some(offsetTop) => Some(offsetTop - headerHeight - ScrollMargin)
  }
}
