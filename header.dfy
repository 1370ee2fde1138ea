/**
 * The site header (src/components/layout/Header.tsx): which navigation link is marked
 * active for the current path, the sticky bar that appears once the page has scrolled
 * 100 pixels, and the mobile menu that a toggle opens and any change of path closes.
 */
module Header {
  import opened Text

  datatype NavLink = NavLink(caption: string, href: string)

  const NavLinks: seq<NavLink> := [
    NavLink("Home", "/"),
    NavLink("Services", "#service"),
    NavLink("About Us", "#about"),
    NavLink("Blog", "#blog"),
    NavLink("Contact", "/contact")
  ]

  /** The home link matches its path exactly; every other link matches by prefix. */
  function IsActive(href: string, pathname: string): (active: bool)
    ensures active ==> |href| <= |pathname| && pathname[..|href|] == href
    ensures pathname == href ==> active
    ensures href == "/" && pathname != "/" ==> !active
    ensures href != "/" && StartsWith(pathname, href) ==> active
  {
    if href == "/" then pathname == href else StartsWith(pathname, href)
  }

  /** A path such as `usePathname` reports, starting with `/`. */
  predicate IsPath(pathname: string) {
    |pathname| > 0 && pathname[0] == '/'
  }

  /** The in-page links (`#...`) are never active on a path. */
  lemma HashLinksNeverActive(href: string, pathname: string)
    requires |href| > 0 && href[0] == '#' && IsPath(pathname)
    ensures !IsActive(href, pathname)
  {
  }

  /** Home is active exactly on `/`; Contact on `/contact` and every path below it. */
  lemma HomeAndContactActive(pathname: string)
    ensures IsActive(NavLinks[0].href, pathname) <==> pathname == "/"
    ensures IsActive(NavLinks[4].href, pathname) <==> StartsWith(pathname, "/contact")
  {
  }

  /** On any path at most one of the five links is active. */
  lemma AtMostOneActive(pathname: string, i: nat, j: nat)
    requires IsPath(pathname) && i < j < |NavLinks|
    ensures !(IsActive(NavLinks[i].href, pathname) && IsActive(NavLinks[j].href, pathname))
  {
    if 1 <= i <= 3 || 1 <= j <= 3 {
      var k := if 1 <= i <= 3 then i else j;
      assert NavLinks[k].href[0] == '#';
      HashLinksNeverActive(NavLinks[k].href, pathname);
    } else if IsActive(NavLinks[i].href, pathname) {
      assert pathname == "/";
    }
  }

  /** The scroll handler: sticky from 100 pixels down. */
  predicate Sticky(scrollY: real) {
    scrollY >= 100.0
  }

  /** `['header-bottom']`, with `active` pushed while sticky, joined by spaces. */
  function HeaderBottomClassName(isSticky: bool): string {
    Join(["header-bottom"] + (if isSticky then ["active"] else []), " ")
  }

  lemma HeaderBottomClassNames(isSticky: bool)
    ensures HeaderBottomClassName(isSticky) == "header-bottom" + (if isSticky then " active" else "")
    ensures HasClass(HeaderBottomClassName(isSticky), "active") <==> isSticky
  {
    JoinActive("header-bottom", isSticky);
    ActiveSuffix("header-bottom", isSticky);
  }

  function NavbarClassName(isMenuOpen: bool): string {
    "navbar container" + (if isMenuOpen then " active" else "")
  }

  function ToggleClassName(isMenuOpen: bool): string {
    "nav-toggle-btn" + (if isMenuOpen then " active" else "")
  }

  function NavLinkClassName(isActive: bool): string {
    "navbar-link" + (if isActive then " active" else "")
  }

  /** The navbar keeps its two classes and carries `active` exactly while the menu is open. */
  lemma NavbarClasses(isMenuOpen: bool)
    ensures Split(NavbarClassName(isMenuOpen), ' ')
         == ["navbar", "container"] + (if isMenuOpen then ["active"] else [])
    ensures HasClass(NavbarClassName(isMenuOpen), "active") <==> isMenuOpen
  {
    assert "navbar container" == "navbar" + " " + "container";
    SplitTwoActiveSuffix("navbar", "container", isMenuOpen);
  }

  /** The toggle button carries `active` exactly while the menu is open, and a navigation
      link exactly while it is active. */
  lemma ToggleAndLinkClasses(isMenuOpen: bool, isActive: bool)
    ensures HasClass(ToggleClassName(isMenuOpen), "active") <==> isMenuOpen
    ensures HasClass(NavLinkClassName(isActive), "active") <==> isActive
  {
    ActiveSuffix("nav-toggle-btn", isMenuOpen);
    ActiveSuffix("navbar-link", isActive);
  }

  /** The header's state: the path it last rendered for, the sticky flag and the menu. */
  class HeaderState {
    var pathname: string
    var isSticky: bool
    var isMenuOpen: bool

    /** Mounting: both effects run once, so the sticky flag reflects the scroll position
        and the menu is closed. */
    constructor (pathname: string, scrollY: real)
      ensures this.pathname == pathname && isSticky == Sticky(scrollY) && !isMenuOpen
    {
      this.pathname := pathname;
      isSticky := scrollY >= 100.0;
      isMenuOpen := false;
    }

    /** `aria-expanded` of the toggle button. */
    function AriaExpanded(): bool
      reads this
    {
      isMenuOpen
    }

    /** The toggle button. */
    method ToggleMenu()
      modifies this
      ensures isMenuOpen == !old(isMenuOpen)
      ensures pathname == old(pathname) && isSticky == old(isSticky)
    {
      isMenuOpen := !isMenuOpen;
    }

    /** A `scroll` event. */
    method OnScroll(scrollY: real)
      modifies this
      ensures isSticky == Sticky(scrollY)
      ensures pathname == old(pathname) && isMenuOpen == old(isMenuOpen)
    {
      isSticky := scrollY >= 100.0;
    }

    /** A render for `next`: the `[pathname]` effect runs, and closes the menu, only when
        the path has changed. */
    method Navigate(next: string)
      modifies this
      ensures pathname == next && isSticky == old(isSticky)
      ensures next != old(pathname) ==> !isMenuOpen
      ensures next == old(pathname) ==> isMenuOpen == old(isMenuOpen)
    {
      if next != pathname {
        pathname := next;
        isMenuOpen := false;
      }
    }
  }

  /** Opening the menu and following a link to another page leaves the menu closed, with
      `aria-expanded` false and no `active` on the navbar. */
  method MenuClosesOnNavigation(from: string, to: string) returns (expanded: bool, navbar: string)
    requires from != to
    ensures !expanded && navbar == "navbar container"
  {
    var header := new HeaderState(from, 0.0);
    header.ToggleMenu();
    header.Navigate(to);
    expanded := header.AriaExpanded();
    navbar := NavbarClassName(header.isMenuOpen);
  }
}
