/**
 * The site layout: the navigation-link table, the rule that decides which
 * link is highlighted for the current pathname, and the mobile-menu flag.
 */
module Layout {

  /** One entry of the navigation bar. */
  datatype NavLink = NavLink(path: string, caption: string)

  const NavLinks: seq<NavLink> := [
    NavLink("/", "Home"),
    NavLink("/features", "Features"),
    NavLink("/implementation", "Implementation"),
    NavLink("/roadmap", "Roadmap")
  ]

  /** `s.startsWith(p)`. */
  predicate StartsWith(s: string, p: string): (r: bool)
    ensures r <==> exists rest :: s == p + rest
  {
    if |p| <= |s| && s[..|p|] == p then
      assert s == p + s[|p|..];
      true
    else
      assert forall rest :: s != p + rest by {
        forall rest
          ensures s != p + rest
        {
          assert (p + rest)[..|p|] == p;
        }
      }
      false
  }

  /** `isActive(path)` for the current `pathname`: the root link only on an
      exact match, every other link on a prefix match. */
  function IsActive(pathname: string, path: string): (active: bool)
    ensures path == "/" ==> (active <==> pathname == "/")
    ensures path != "/" ==> (active <==> StartsWith(pathname, path))
  {
    if path == "/" then pathname == "/" else StartsWith(pathname, path)
  }

  /** A sub-page of a section keeps that section's link highlighted, and the
      root link is not highlighted there. */
  lemma SubPageActivatesSection()
    ensures IsActive("/features/x", "/features")
    ensures !IsActive("/features/x", "/")
    ensures IsActive("/", "/") && !IsActive("/", "/features")
  {
    assert "/features/x"[..|"/features"|] == "/features";
  }

  /** The non-root links differ from their second character on or in their
      first characters past the slash, so none is a prefix of another. */
  lemma NoLinkIsPrefixOfAnother(i: int, j: int)
    requires 1 <= i < |NavLinks| && 1 <= j < |NavLinks| && i != j
    ensures |NavLinks[i].path| >= 2 && |NavLinks[j].path| >= 2
    ensures NavLinks[i].path[1] != NavLinks[j].path[1]
  {
    assert NavLinks[1].path[1] == 'f';
    assert NavLinks[2].path[1] == 'i';
    assert NavLinks[3].path[1] == 'r';
  }

  /** Whatever the pathname, at most one navigation link is highlighted. */
  lemma AtMostOneActive(pathname: string, i: int, j: int)
    requires 0 <= i < |NavLinks| && 0 <= j < |NavLinks|
    requires IsActive(pathname, NavLinks[i].path) && IsActive(pathname, NavLinks[j].path)
    ensures i == j
  {
    assert NavLinks[0].path == "/";
    if i != j && i != 0 && j != 0 {
      // Both links would be prefixes of the pathname, hence agree on their
      // second character.
      NoLinkIsPrefixOfAnother(i, j);
    } else if i != j {
      // The root link needs pathname "/", too short for any other link.
      var k := if i == 0 then j else i;
      NoLinkIsPrefixOfAnother(k, if k == 1 then 2 else 1);
    }
  }

  /** The layout component's mobile-menu state. */
  class Menu {
    var mobileMenuOpen: bool

    constructor ()
      ensures !mobileMenuOpen
    {
      mobileMenuOpen := false;
    }

    /** The menu button flips the flag. */
    method Toggle()
      modifies this
      ensures mobileMenuOpen == !old(mobileMenuOpen)
    {
      mobileMenuOpen := !mobileMenuOpen;
    }

    /** Any change of location closes the menu. */
    method RouteChanged(pathname: string)
      modifies this
      ensures !mobileMenuOpen
    {
      mobileMenuOpen := false;
    }
  }
}
