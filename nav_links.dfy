/**
 * The sidebar navigation: which link is highlighted for the current path, and
 * the rewrite of the '/profile' link to the signed-in user's profile.
 *
 * The links live in one array shared by every render. `RenderNavLinks` is
 * the render as written: it rewrites the profile entry of that array in place,
 * so the rewrite outlives the render. `NavItems` is the evidently intended
 * render, which leaves the links untouched.
 */
module NavLinks {
  import opened Model
  import Routes

  datatype NavLink = NavLink(imgUrl: string, caption: string, route: string)

  /** A rendered link: where it points, its label and whether it is highlighted. */
  datatype Item = Item(href: string, caption: string, active: bool)

  /** The seven sidebar links, in order. */
  const SidebarLinks: seq<NavLink> := [
    NavLink("/icons/home.svg", "Home", "/"),
    NavLink("/icons/users.svg", "Community", "/community"),
    NavLink("/icons/star.svg", "Collections", "/collection"),
    NavLink("/icons/suitcase.svg", "Jobs", "/jobs"),
    NavLink("/icons/tag.svg", "Tags", "/tags"),
    NavLink("/icons/user.svg", "Profile", "/profile"),
    NavLink("/icons/question.svg", "Ask a Question", "/ask-question")
  ]

  const ProfileRoute := "/profile"

  /** `s.includes(part)` */
  predicate Includes(s: string, part: string) {
    exists i :: 0 <= i <= |s| && part <= s[i..]
  }

  /** A link is highlighted when its route, longer than "/", occurs in the path, or equals it. */
  predicate IsActive(pathname: string, route: string)
    ensures IsActive(pathname, route) ==> Includes(pathname, route)
    ensures |route| <= 1 ==> (IsActive(pathname, route) <==> pathname == route)
  {
    assert pathname == route ==> route <= pathname[0..];
    (Includes(pathname, route) && |route| > 1) || pathname == route
  }

  /** The home link "/" is highlighted on the home page only, although every path contains "/". */
  lemma HomeActiveOnlyAtHome(pathname: string)
    ensures IsActive(pathname, Routes.Home) <==> pathname == Routes.Home
  {
  }

  /** A path that equals the route, or extends it, highlights the link. */
  lemma {:induction false} ActiveUnderRoute(route: string, rest: string)
    requires |route| > 1
    ensures IsActive(route + rest, route)
  {
    assert route <= (route + rest)[0..];
  }

  /** A `userId` that is a non-empty string. */
  predicate Truthy(userId: Option<string>) {
    userId.Some? && userId.value != []
  }

  /** `link.route = ${link.route}/${userId}` when the link is the profile link and there is a user. */
  function Rewrite(link: NavLink, userId: Option<string>): (r: NavLink)
    ensures r.imgUrl == link.imgUrl && r.caption == link.caption
    ensures link.route == ProfileRoute && Truthy(userId) ==> r.route == Routes.Profile(userId.value)
    ensures link.route != ProfileRoute || !Truthy(userId) ==> r == link
  {
    if link.route == ProfileRoute && Truthy(userId) then link.(route := link.route + "/" + userId.value) else link
  }

  /** A rewritten route no longer equals '/profile', so the id is never appended twice. */
  lemma RewriteOnce(link: NavLink, u1: Option<string>, u2: Option<string>)
    requires Truthy(u1)
    ensures Rewrite(Rewrite(link, u1), u2) == Rewrite(link, u1)
  {
    if link.route == ProfileRoute {
      assert |Rewrite(link, u1).route| > |ProfileRoute|;
    }
  }

  /**
   * The element one link renders to: nothing for the profile link without a
   * user; otherwise the link with its rewritten route, highlighted by the
   * route it had before the rewrite.
   */
  function ItemOf(link: NavLink, pathname: string, userId: Option<string>): seq<Item> {
    if link.route == ProfileRoute && !Truthy(userId) then []
    else [Item(Rewrite(link, userId).route, link.caption, IsActive(pathname, link.route))]
  }

  /** `sidebarLinks.map(...)`, with `null` elements dropped. */
  function Rendered(links: seq<NavLink>, pathname: string, userId: Option<string>): seq<Item> {
    if links == [] then []
    else Rendered(links[..|links| - 1], pathname, userId) + ItemOf(links[|links| - 1], pathname, userId)
  }

  /** The links after a render: the profile link rewritten, the others as they were. */
  function Rewritten(links: seq<NavLink>, userId: Option<string>): (r: seq<NavLink>)
    ensures |r| == |links|
    ensures forall i :: 0 <= i < |links| ==> r[i] == Rewrite(links[i], userId)
  {
    if links == [] then []
    else Rewritten(links[..|links| - 1], userId) + [Rewrite(links[|links| - 1], userId)]
  }

  /** Rendering one more link of a prefix appends that link's element. */
  lemma RenderedPrefix(links: seq<NavLink>, i: nat, pathname: string, userId: Option<string>)
    requires i < |links|
    ensures Rendered(links[..i + 1], pathname, userId) == Rendered(links[..i], pathname, userId) + ItemOf(links[i], pathname, userId)
  {
    assert links[..i + 1][..i] == links[..i];
  }

  /** The render as written: every link is mapped in order and the shared array is rewritten in place. */
  method RenderNavLinks(links: array<NavLink>, pathname: string, userId: Option<string>) returns (items: seq<Item>)
    modifies links
    ensures links[..] == Rewritten(old(links[..]), userId)
    ensures items == Rendered(old(links[..]), pathname, userId)
  {
    ghost var before := links[..];
    items := [];
    var i := 0;
    while i < links.Length
      invariant 0 <= i <= links.Length
      invariant forall j :: 0 <= j < i ==> links[j] == Rewrite(before[j], userId)
      invariant forall j :: i <= j < links.Length ==> links[j] == before[j]
      invariant items == Rendered(before[..i], pathname, userId)
    {
      var link := links[i];
      var isActive := (Includes(pathname, link.route) && |link.route| > 1) || pathname == link.route;
      RenderedPrefix(before, i, pathname, userId);
      if link.route == ProfileRoute {
        if Truthy(userId) {
          links[i] := link.(route := link.route + "/" + userId.value);
          link := links[i];
        } else {
          i := i + 1;
          continue;
        }
      }
      items := items + [Item(link.route, link.caption, isActive)];
      i := i + 1;
    }
    assert before[..links.Length] == before;
  }

  /** Where no link is dropped, the render maps the links one to one. */
  lemma {:induction false} RenderedMap(links: seq<NavLink>, pathname: string, userId: Option<string>)
    requires Truthy(userId) || forall i :: 0 <= i < |links| ==> links[i].route != ProfileRoute
    ensures |Rendered(links, pathname, userId)| == |links|
    ensures forall i :: 0 <= i < |links| ==>
      Rendered(links, pathname, userId)[i] == Item(Rewrite(links[i], userId).route, links[i].caption, IsActive(pathname, links[i].route))
    decreases |links|
  {
    if links != [] {
      RenderedMap(links[..|links| - 1], pathname, userId);
    }
  }

  /**
   * The evidently intended render: the links as declared, with the profile
   * link pointing at the current user's profile, and no change to any shared
   * state.
   */
  function NavItems(pathname: string, userId: Option<string>): seq<Item> {
    Rendered(SidebarLinks, pathname, userId)
  }

  /** The intended render links to the current user's profile, and has no profile link without a user. */
  lemma NavItemsProfile(pathname: string, userId: Option<string>)
    ensures Truthy(userId) ==>
      && |NavItems(pathname, userId)| == 7
      && NavItems(pathname, userId)[5] == Item(Routes.Profile(userId.value), "Profile", IsActive(pathname, ProfileRoute))
    ensures !Truthy(userId) ==>
      && |NavItems(pathname, userId)| == 6
      && forall i :: 0 <= i < 6 ==> NavItems(pathname, userId)[i].caption != "Profile"
  {
    if Truthy(userId) {
      RenderedMap(SidebarLinks, pathname, userId);
    } else {
      NavItemsSignedOut(pathname, userId);
    }
  }

  lemma NavItemsSignedOut(pathname: string, userId: Option<string>)
    requires !Truthy(userId)
    ensures |NavItems(pathname, userId)| == 6
    ensures forall i :: 0 <= i < 6 ==> NavItems(pathname, userId)[i].caption != "Profile"
  {
    var s := SidebarLinks;
    var first := s[..5];
    assert s[..6][..5] == first;
    assert Rendered(s[..6], pathname, userId) == Rendered(first, pathname, userId);
    RenderedMap(first, pathname, userId);
    RenderedMap([s[6]], pathname, userId);
    assert NavItems(pathname, userId) == Rendered(first, pathname, userId) + ItemOf(s[6], pathname, userId);
  }

  /**
   * As written, the rewrite sticks: once user `a` has been rendered, a later
   * render, for a signed-out visitor or for any other user, still shows the
   * profile link and it points at `a`'s profile.
   */
  lemma StaleProfileLink(pathname: string, a: string, b: Option<string>)
    requires a != []
    ensures var later := Rendered(Rewritten(SidebarLinks, Some(a)), pathname, b);
      |later| == 7 && later[5].href == Routes.Profile(a)
  {
    var shared := Rewritten(SidebarLinks, Some(a));
    forall i | 0 <= i < |shared| ensures shared[i].route != ProfileRoute {
      if i == 5 {
        assert |shared[5].route| > |ProfileRoute|;
      }
    }
    RenderedMap(shared, pathname, b);
  }
}
