/** The stylesheet registry of the router: view stylesheet links in the document head,
    each tagged with its href as a `data-view-css` key. */
module Stylesheets {

  /** The `data-view-css` keys of the attached view stylesheet links, in document order. */
  type Links = seq<string>

  /** At most one attached link per href. */
  predicate Unique(links: Links)
  {
    forall i, j :: 0 <= i < j < |links| ==> links[i] != links[j]
  }

  /** Prepending an href that is not attached keeps hrefs unique. */
  lemma UniqueCons(href: string, links: Links)
    requires href !in links && Unique(links)
    ensures Unique([href] + links)
  {
    var r := [href] + links;
    forall i, j | 0 <= i < j < |r|
      ensures r[i] != r[j]
    {
      assert r[j] == links[j - 1];
      if i > 0 {
        assert r[i] == links[i - 1];
      }
    }
  }

  /** Dropping the first link keeps hrefs unique, and the first href occurs nowhere after. */
  lemma UniqueTail(links: Links)
    requires links != []
    ensures Unique(links) ==> Unique(links[1..]) && links[0] !in links[1..]
  {
    forall i, j | 0 <= i < j < |links| - 1
      ensures Unique(links) ==> links[1..][i] != links[1..][j]
    {
      assert links[1..][i] == links[i + 1] && links[1..][j] == links[j + 1];
    }
  }

  /** Keeping the first link in front of a selection of the later ones keeps hrefs unique. */
  lemma UniqueKeepFirst(links: Links, rest: Links)
    requires links != [] && forall x :: x in rest ==> x in links[1..]
    ensures Unique(links) && Unique(rest) ==> Unique([links[0]] + rest)
  {
    UniqueTail(links);
    if Unique(links) && Unique(rest) {
      UniqueCons(links[0], rest);
    }
  }

  /** Reference definition: the links, in order, except those whose href is in `gone`. */
  function Without(links: Links, gone: set<string>): (r: Links)
    ensures forall x :: x in r <==> x in links && x !in gone
    ensures forall x :: x !in gone ==> multiset(r)[x] == multiset(links)[x]
    ensures Unique(links) ==> Unique(r)
  {
    if links == [] then []
    else
      assert links == [links[0]] + links[1..];
      var rest := Without(links[1..], gone);
      if links[0] in gone then rest
      else
        UniqueTail(links);
        UniqueKeepFirst(links, rest);
        [links[0]] + rest
  }

  /** `loadCss(href)`: attach a link for `href` unless one is already attached.
      New links go to the end of the head; existing links are left where they are. */
  function LoadCss(links: Links, href: string): (r: Links)
    ensures href in r
    ensures links <= r && |r| <= |links| + 1
    ensures forall x :: x != href ==> multiset(r)[x] == multiset(links)[x]
    ensures href in links ==> r == links
    ensures Unique(links) ==> Unique(r)
  {
    if href in links then links else links + [href]
  }

  /** `unloadCss(href)`: remove the first attached link for `href`, if any
      (the document query returns the first match only). */
  function UnloadCss(links: Links, href: string): (r: Links)
    ensures multiset(r) == multiset(links) - multiset{href}
    ensures forall x :: x in r ==> x in links
    ensures href !in links ==> r == links
    ensures Unique(links) ==> href !in r && Unique(r)
  {
    if links == [] then []
    else
      assert links == [links[0]] + links[1..];
      if links[0] == href then
        UniqueTail(links);
        links[1..]
      else
        var rest := UnloadCss(links[1..], href);
        UniqueTail(links);
        UniqueKeepFirst(links, rest);
        [links[0]] + rest
  }

  /** The preload loop of `loadView`: `loadCss` for every href of the next view, in order. */
  function PreloadCss(links: Links, hrefs: seq<string>): (r: Links)
    ensures links <= r
    ensures forall x :: x in r <==> x in links || x in hrefs
    ensures forall x :: x !in hrefs ==> multiset(r)[x] == multiset(links)[x]
    ensures Unique(links) ==> Unique(r)
    decreases |hrefs|
  {
    if hrefs == [] then links
    else
      var loaded := LoadCss(links, hrefs[0]);
      var r := PreloadCss(loaded, hrefs[1..]);
      assert hrefs == [hrefs[0]] + hrefs[1..];
      assert links <= loaded <= r;
      r
  }

  /** The hrefs of the previous view that the next view does not use. */
  function Stale(prev: seq<string>, next: seq<string>): (s: set<string>)
    ensures forall x :: x in s <==> x in prev && x !in next
  {
    set x | x in prev && x !in next
  }

  /** The teardown loop of `loadView`: `unloadCss` for every previous href that the
      next view does not list, in the order of the previous list. */
  function DetachStale(links: Links, prev: seq<string>, next: seq<string>): (r: Links)
    ensures forall x :: x !in Stale(prev, next) ==> multiset(r)[x] == multiset(links)[x]
    ensures forall x :: x in r ==> x in links
    ensures Unique(links) ==> Unique(r)
    ensures Unique(links) ==> forall x :: x in prev && x !in next ==> x !in r
    decreases |prev|
  {
    if prev == [] then links
    else
      assert prev == [prev[0]] + prev[1..];
      if prev[0] in next then DetachStale(links, prev[1..], next)
      else DetachStale(UnloadCss(links, prev[0]), prev[1..], next)
  }

  /** Removing no href leaves the links as they are. */
  lemma {:induction false} WithoutNothing(links: Links, gone: set<string>)
    requires forall x :: x in links ==> x !in gone
    ensures Without(links, gone) == links
    decreases |links|
  {
    if links != [] {
      assert links == [links[0]] + links[1..];
      WithoutNothing(links[1..], gone);
    }
  }

  /** Removing `a` and then `b` is removing both at once. */
  lemma {:induction false} WithoutTwice(links: Links, a: set<string>, b: set<string>)
    ensures Without(Without(links, a), b) == Without(links, a + b)
    decreases |links|
  {
    if links != [] {
      WithoutTwice(links[1..], a, b);
      if links[0] !in a {
        var w := Without(links[1..], a);
        assert Without(links, a) == [links[0]] + w;
        assert ([links[0]] + w)[1..] == w;
      }
    }
  }

  /** With at most one link per href, `unloadCss` removes every link for the href and
      keeps the order of the others. */
  lemma {:induction false} UnloadIsWithout(links: Links, href: string)
    requires Unique(links)
    ensures UnloadCss(links, href) == Without(links, {href})
    decreases |links|
  {
    if links != [] {
      assert Unique(links[1..]);
      if links[0] == href {
        assert href !in links[1..];
        WithoutNothing(links[1..], {href});
      } else {
        UnloadIsWithout(links[1..], href);
      }
    }
  }

  /** Attaching an href that was absent and then detaching it restores the head. */
  lemma {:induction false} LoadThenUnload(links: Links, href: string)
    requires href !in links
    ensures UnloadCss(LoadCss(links, href), href) == links
    decreases |links|
  {
    if links != [] {
      assert (links + [href])[1..] == links[1..] + [href];
      LoadThenUnload(links[1..], href);
      assert links == [links[0]] + links[1..];
    }
  }

  /** A second `loadCss` of the same href changes nothing. */
  lemma LoadCssIdempotent(links: Links, href: string)
    ensures LoadCss(LoadCss(links, href), href) == LoadCss(links, href)
  {
  }

  /** A second `unloadCss` of the same href changes nothing while hrefs are unique. */
  lemma UnloadCssIdempotent(links: Links, href: string)
    requires Unique(links)
    ensures UnloadCss(UnloadCss(links, href), href) == UnloadCss(links, href)
  {
  }

  /** With at most one link per href, the teardown loop removes exactly the stale hrefs
      and keeps the order of everything else. */
  lemma {:induction false} DetachStaleIsWithout(links: Links, prev: seq<string>, next: seq<string>)
    requires Unique(links)
    ensures DetachStale(links, prev, next) == Without(links, Stale(prev, next))
    decreases |prev|
  {
    if prev == [] {
      assert Stale(prev, next) == {};
      WithoutNothing(links, {});
    } else {
      var p, rest := prev[0], prev[1..];
      assert prev == [p] + rest;
      assert forall x :: x in prev <==> x == p || x in rest;
      if p in next {
        assert Stale(prev, next) == Stale(rest, next);
        DetachStaleIsWithout(links, rest, next);
      } else {
        var u := UnloadCss(links, p);
        assert DetachStale(links, prev, next) == DetachStale(u, rest, next);
        DetachStaleIsWithout(u, rest, next);
        UnloadIsWithout(links, p);
        assert u == Without(links, {p});
        WithoutTwice(links, {p}, Stale(rest, next));
        assert Stale(prev, next) == {p} + Stale(rest, next);
      }
    }
  }
}
