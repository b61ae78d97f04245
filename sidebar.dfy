/** The dashboard sidebar: which navigation items a role sees and which one
    is highlighted for the current path. */
module Sidebar {
  import opened Common
  import opened Text

  datatype NavItem = NavItem(href: string, title: string, adminOnly: bool)

  const Overview := NavItem("/dashboard", "Overview", false)
  const PlacesItem := NavItem("/dashboard/places", "Places", false)
  const UsersItem := NavItem("/dashboard/users", "Users", true)

  /** `allNavItems`, in display order. */
  const AllNavItems := [Overview, PlacesItem, UsersItem]

  /** `!item.adminOnly || userRole === 'ADMIN'`. */
  predicate Visible(role: string, item: NavItem)
  {
    !item.adminOnly || role == "ADMIN"
  }

  /** `allNavItems.filter(...)`: the items the role may open, in their
      original order; an admin sees all of them, anyone else only those that
      are not admin-only, and so never the Users page. */
  function VisibleItems(role: string): (items: seq<NavItem>)
    ensures Subsequence(items, AllNavItems)
    ensures role == "ADMIN" ==> items == AllNavItems
    ensures role != "ADMIN" ==> forall item :: item in items ==> !item.adminOnly
    ensures forall item :: item in AllNavItems && !item.adminOnly ==> item in items
  {
    var items := Filter(AllNavItems, item => Visible(role, item));
    if role == "ADMIN" then
      FilterKeepsAll(AllNavItems, item => Visible(role, item));
      items
    else items
  }

  /** Anyone who is not an admin gets Overview and Places, in that order. */
  lemma NonAdminItems(role: string)
    requires role != "ADMIN"
    ensures VisibleItems(role) == [Overview, PlacesItem]
  {
    var keep := item => Visible(role, item);
    assert AllNavItems[1..] == [PlacesItem, UsersItem];
    assert AllNavItems[1..][1..] == [UsersItem];
    assert AllNavItems[1..][1..][1..] == [];
    assert Filter([UsersItem], keep) == [];
    assert Filter([PlacesItem, UsersItem], keep) == [PlacesItem];
  }

  /** `pathname === item.href || (item.href !== '/dashboard' &&
      pathname.startsWith(item.href))`. */
  predicate IsActive(pathname: string, href: string)
  {
    pathname == href || (href != "/dashboard" && StartsWith(pathname, href))
  }

  /** The overview item is highlighted only on its own path; every other
      item on any path that begins with its href. */
  lemma ActiveRule(pathname: string, href: string)
    ensures IsActive(href, href)
    ensures href == "/dashboard" ==> (IsActive(pathname, href) <==> pathname == "/dashboard")
    ensures href != "/dashboard" ==> (IsActive(pathname, href) <==> StartsWith(pathname, href))
  {
    if href != "/dashboard" && pathname == href {
      assert pathname[..|href|] == href;
    }
  }

  /** There is no `/` boundary in the test: a path that merely extends the
      Places href with more letters highlights Places, and no path under
      the dashboard other than its own highlights Overview. */
  lemma NoSegmentBoundary()
    ensures IsActive("/dashboard/placesx", PlacesItem.href)
    ensures !IsActive("/dashboard/places", Overview.href)
  {
    assert "/dashboard/placesx"[..|"/dashboard/places"|] == "/dashboard/places";
  }
}
