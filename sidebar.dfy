/**
 * The shell sidebar's choice of highlighted link: Home is highlighted on "/" only, and a
 * nav item on its own path and every path below it.
 */
module Sidebar {
  import opened Text
  import opened RemoteManifest

  /** `isActive(path)`: the current pathname is `path` or lies below it. */
  predicate IsActive(pathname: string, path: string) {
    pathname == path || StartsWith(pathname, path + "/")
  }

  /** The rule spelled out by positions: equal, or `path` followed by a "/" boundary. */
  lemma ActiveIff(pathname: string, path: string)
    ensures IsActive(pathname, path)
        <==> pathname == path ||
             (|path| < |pathname| && pathname[..|path|] == path && pathname[|path|] == '/')
  {
    var p := path + "/";
    if |path| < |pathname| && pathname[..|path|] == path && pathname[|path|] == '/' {
      assert pathname[..|p|] == pathname[..|path|] + [pathname[|path|]];
    }
    if StartsWith(pathname, p) {
      assert pathname[..|path|] == pathname[..|p|][..|path|];
      assert pathname[|path|] == pathname[..|p|][|path|];
    }
  }

  /** A pathname that continues `path` with anything but "/" ("/trafficx" for "/traffic")
      does not highlight it. */
  lemma NoBoundaryNotActive(pathname: string, path: string)
    requires |path| < |pathname| && pathname[..|path|] == path
    requires pathname[|path|] != '/'
    ensures !IsActive(pathname, path)
  {
    ActiveIff(pathname, path);
  }

  /** A pathname shorter than `path` never highlights it. */
  lemma ShorterNotActive(pathname: string, path: string)
    requires |pathname| < |path|
    ensures !IsActive(pathname, path)
  {
  }

  /** Two highlighted paths lie on one branch: the shorter is an ancestor of the longer. */
  lemma ActivePathsNested(pathname: string, a: string, b: string)
    requires IsActive(pathname, a) && IsActive(pathname, b)
    requires |a| <= |b|
    ensures b[..|a|] == a
  {
    ActiveIff(pathname, a);
    ActiveIff(pathname, b);
    assert a == pathname[..|a|];
    assert b[..|a|] == pathname[..|b|][..|a|];
  }

  /** A rendered link: its target, its text and whether it is highlighted. */
  datatype Link = Link(to: string, text: string, active: bool)

  /** The Home link (exact match on "/") followed by one link per nav item, in order,
      each keyed by its path. */
  function SidebarLinks(pathname: string, items: seq<NavItem>): (r: seq<Link>)
    ensures |r| == |items| + 1
    ensures r[0] == Link("/", "Home", pathname == "/")
    ensures r[1..] == ItemLinks(pathname, items)
  {
    [Link("/", "Home", pathname == "/")] + ItemLinks(pathname, items)
  }

  function ItemLinks(pathname: string, items: seq<NavItem>): (r: seq<Link>)
    ensures |r| == |items|
    ensures forall i :: 0 <= i < |items| ==>
              r[i] == Link(items[i].path, items[i].text, IsActive(pathname, items[i].path))
  {
    if items == [] then []
    else [Link(items[0].path, items[0].text, IsActive(pathname, items[0].path))]
         + ItemLinks(pathname, items[1..])
  }

  /** Home is not treated by the prefix rule: "/" would otherwise be highlighted on
      every pathname starting with "//", while Home is highlighted on "/" alone. */
  lemma HomeIsExact(pathname: string, items: seq<NavItem>)
    ensures SidebarLinks(pathname, items)[0].active <==> pathname == "/"
    ensures IsActive("/" + pathname, "/") <==> pathname == [] || pathname[0] == '/'
  {
    ActiveIff("/" + pathname, "/");
    if pathname != [] && pathname[0] == '/' {
      assert ("/" + pathname)[..1] == "/";
    }
  }

  /** `a` is `b` or a prefix of it. */
  predicate PrefixOf(a: string, b: string) { |a| <= |b| && b[..|a|] == a }

  /** No item path is a prefix of another item's path. */
  ghost predicate Unrelated(items: seq<NavItem>) {
    forall i, j :: 0 <= i < |items| && 0 <= j < |items| && i != j ==>
      !PrefixOf(items[i].path, items[j].path)
  }

  /** When no item path is a prefix of another, at most one item is highlighted,
      whatever the pathname, and the list keys are distinct. */
  lemma AtMostOneActive(pathname: string, items: seq<NavItem>)
    requires Unrelated(items)
    ensures forall i, j :: 0 <= i < j < |ItemLinks(pathname, items)| ==>
              !(ItemLinks(pathname, items)[i].active && ItemLinks(pathname, items)[j].active)
    ensures forall i, j :: 0 <= i < j < |ItemLinks(pathname, items)| ==>
              ItemLinks(pathname, items)[i].to != ItemLinks(pathname, items)[j].to
  {
    var links := ItemLinks(pathname, items);
    forall i, j | 0 <= i < j < |links| ensures !(links[i].active && links[j].active) {
      PairNotBothActive(pathname, items[i].path, items[j].path);
    }
    forall i, j | 0 <= i < j < |links| ensures links[i].to != links[j].to {
      assert !PrefixOf(items[i].path, items[j].path);
    }
  }

  lemma PairNotBothActive(pathname: string, a: string, b: string)
    requires !PrefixOf(a, b) && !PrefixOf(b, a)
    ensures !(IsActive(pathname, a) && IsActive(pathname, b))
  {
    if IsActive(pathname, a) && IsActive(pathname, b) {
      if |a| <= |b| {
        ActivePathsNested(pathname, a, b);
      } else {
        ActivePathsNested(pathname, b, a);
      }
    }
  }

  /** Paths that differ in their second character ("/t…", "/r…", "/a…") are unrelated. */
  lemma SecondCharUnrelated(items: seq<NavItem>)
    requires forall i :: 0 <= i < |items| ==> |items[i].path| >= 2
    requires forall i, j :: 0 <= i < |items| && 0 <= j < |items| && i != j ==>
               items[i].path[1] != items[j].path[1]
    ensures Unrelated(items)
  {
    forall i, j | 0 <= i < |items| && 0 <= j < |items| && i != j
      ensures !PrefixOf(items[i].path, items[j].path)
    {
      var a, b := items[i].path, items[j].path;
      assert |a| <= |b| ==> b[..|a|][1] == b[1];
    }
  }

  /** The shown nav items (ShownNavItems) have unrelated paths, so AtMostOneActive
      applies to the sidebar: at most one nav item is highlighted and the list keys are
      distinct. */
  lemma ShownPathsUnrelated(items: seq<NavItem>)
    requires |items| == 3
    requires items[0] == NavItem("/traffic", "Traffic")
    requires items[1] == NavItem("/reports", "Reports")
    requires items[2] == NavItem("/admin", "Admin")
    ensures Unrelated(items)
  {
    assert items[0].path[1] == 't' && items[1].path[1] == 'r' && items[2].path[1] == 'a';
    SecondCharUnrelated(items);
  }
}
