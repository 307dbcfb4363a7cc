/**
 * The paginator under a user's profile: how many pages the posts fill,
 * which page is current, the "Showing X to Y of N posts" range, the
 * Previous/Next buttons and the bar of page buttons with its "..." markers.
 */
module Paginator {
  import opened Wrappers

  const PostsPerPage: int := 7

  function Min(a: int, b: int): int { if a <= b then a else b }

  function Max(a: int, b: int): int { if a >= b then a else b }

  /** JavaScript's `%`: the remainder takes the sign of the dividend. */
  function JsRem(a: int, b: int): int
    requires b > 0
  {
    if a >= 0 then a % b else -((-a) % b)
  }

  /**
   * `Math.floor(totalPosts / 7) + (totalPosts % 7 == 0 ? 0 : 1)`. Dafny's `/`
   * by a positive divisor already rounds down, like `Math.floor`.
   */
  function TotalPages(totalPosts: int): (pages: int)
    ensures (pages - 1) * PostsPerPage < totalPosts <= pages * PostsPerPage
    ensures totalPosts == 0 ==> pages == 0
    ensures totalPosts > 0 ==> pages >= 1
  {
    totalPosts / PostsPerPage + (if JsRem(totalPosts, PostsPerPage) == 0 then 0 else 1)
  }

  /**
   * The current page exactly as the component computes it: the requested
   * page, cut down to the number of pages and never raised.
   */
  function CurrentPageAsWritten(requested: int, totalPages: int): (page: int)
    ensures page <= totalPages
    ensures page == requested || page == totalPages
    ensures requested <= totalPages ==> page == requested
  {
    Min(requested, totalPages)
  }

  /**
   * The current page as intended: the requested page moved into
   * 1..totalPages, and page 1 when there are no pages at all.
   */
  function CurrentPage(requested: int, totalPages: int): (page: int)
    ensures page >= 1
    ensures totalPages >= 1 ==> page <= totalPages
    ensures 1 <= requested <= totalPages ==> page == requested
    ensures requested > totalPages >= 1 ==> page == totalPages
  {
    Max(1, Min(requested, totalPages))
  }

  /** The first post number of the "Showing X to Y of N posts" line. */
  function Start(currentPage: int, totalPosts: int): int
  {
    Min((currentPage - 1) * PostsPerPage + 1, totalPosts)
  }

  /** The last post number of the "Showing X to Y of N posts" line. */
  function End(start: int, totalPosts: int): int
  {
    Min(start + PostsPerPage - 1, totalPosts)
  }

  /** On a page that exists, the line names exactly that page's slice of at most seven posts. */
  lemma ShowingRange(totalPosts: int, currentPage: int)
    requires totalPosts > 0
    requires 1 <= currentPage <= TotalPages(totalPosts)
    ensures var start := Start(currentPage, totalPosts);
            var end := End(start, totalPosts);
            && start == (currentPage - 1) * PostsPerPage + 1
            && end == Min(currentPage * PostsPerPage, totalPosts)
            && 1 <= start <= end <= totalPosts
            && end - start + 1 <= PostsPerPage
  {
  }

  predicate DisableNext(currentPage: int, totalPages: int) { currentPage >= totalPages }

  predicate DisablePrev(currentPage: int) { currentPage == 1 }

  /** `handleNext`: the new `page` search parameter, or `None` when the button does nothing. */
  function HandleNext(currentPage: int, totalPages: int): (update: Option<int>)
    ensures update.None? <==> DisableNext(currentPage, totalPages)
    ensures update.Some? ==> update.value == currentPage + 1
  {
    if !DisableNext(currentPage, totalPages) then Some(currentPage + 1) else None
  }

  /** `handlePrev`: the new `page` search parameter, or `None` when the button does nothing. */
  function HandlePrev(currentPage: int): (update: Option<int>)
    ensures update.None? <==> DisablePrev(currentPage)
    ensures update.Some? ==> update.value == currentPage - 1
  {
    if !DisablePrev(currentPage) then Some(currentPage - 1) else None
  }

  /** The requested page after a handler ran: unchanged when it did nothing. */
  function Apply(requested: int, update: Option<int>): int
  {
    if update.Some? then update.value else requested
  }

  /**
   * Following Next or Previous moves the current page by exactly one when
   * the button is enabled and leaves it where it is when it is disabled.
   */
  lemma NavigationMovesByOne(totalPosts: int, requested: int)
    ensures var pages := TotalPages(totalPosts);
            var current := CurrentPage(requested, pages);
            && CurrentPage(Apply(requested, HandleNext(current, pages)), pages)
               == (if DisableNext(current, pages) then current else current + 1)
            && CurrentPage(Apply(requested, HandlePrev(current)), pages)
               == (if DisablePrev(current) then current else current - 1)
  {
  }

  /** The same for the component as written, on every page that exists. */
  lemma NavigationMovesByOneAsWritten(totalPosts: int, requested: int)
    requires 1 <= CurrentPageAsWritten(requested, TotalPages(totalPosts))
    ensures var pages := TotalPages(totalPosts);
            var current := CurrentPageAsWritten(requested, pages);
            && CurrentPageAsWritten(Apply(requested, HandleNext(current, pages)), pages)
               == (if DisableNext(current, pages) then current else current + 1)
            && CurrentPageAsWritten(Apply(requested, HandlePrev(current)), pages)
               == (if DisablePrev(current) then current else current - 1)
  {
  }

  /** A user without posts: the line reads "Showing -6 to 0 of 0 posts" and Previous is enabled. */
  lemma EmptyFeedAsWritten()
    ensures var pages := TotalPages(0);
            var current := CurrentPageAsWritten(1, pages);
            && current == 0
            && Start(current, 0) == -6
            && End(Start(current, 0), 0) == 0
            && !DisablePrev(current)
            && HandlePrev(current) == Some(-1)
  {
  }

  /** With the intended current page a user without posts sees "Showing 0 to 0 of 0" and both buttons disabled. */
  lemma EmptyFeed(requested: int)
    ensures var pages := TotalPages(0);
            var current := CurrentPage(requested, pages);
            && Start(current, 0) == 0
            && End(Start(current, 0), 0) == 0
            && DisablePrev(current)
            && DisableNext(current, pages)
  {
  }

  /** On any feed and any request, the intended current page names a real slice (or the empty one). */
  lemma ShowingRangeForAnyRequest(totalPosts: int, requested: int)
    requires totalPosts >= 0
    ensures var current := CurrentPage(requested, TotalPages(totalPosts));
            var start := Start(current, totalPosts);
            var end := End(start, totalPosts);
            && 0 <= start <= end <= totalPosts
            && end - start + 1 <= PostsPerPage
            && (totalPosts > 0 ==> 1 <= start)
  {
    if totalPosts > 0 {
      ShowingRange(totalPosts, CurrentPage(requested, TotalPages(totalPosts)));
    }
  }

  // ---------------------------------------------------------------------------
  // The bar of page buttons
  // ---------------------------------------------------------------------------

  /** One element of the bar: a page button (highlighted when `active`) or a "..." marker. */
  datatype Item = Page(n: int, active: bool) | Ellipsis

  /** The button for page `k`, highlighted when it is the current page. */
  function Button(k: int, current: int): Item { Page(k, k == current) }

  /** The buttons for pages lo..hi, in order. */
  function Run(lo: int, hi: int, current: int): (r: seq<Item>)
    ensures |r| == Max(hi - lo + 1, 0)
  {
    seq(Max(hi - lo + 1, 0), i => Button(lo + i, current))
  }

  /** A run grows by one button at its end. */
  lemma RunSnoc(lo: int, hi: int, current: int)
    requires lo <= hi + 1
    ensures Run(lo, hi + 1, current) == Run(lo, hi, current) + [Button(hi + 1, current)]
  {
    var a, b := Run(lo, hi + 1, current), Run(lo, hi, current) + [Button(hi + 1, current)];
    assert |a| == |b|;
    forall i | 0 <= i < |a| ensures a[i] == b[i] {
      if i < |a| - 1 { assert b[i] == Run(lo, hi, current)[i]; }
    }
  }

  /** What the source's `splice(start, 0, item)` does to an array: insert `item`, counting a negative `start` from the end. */
  function Splice(s: seq<Item>, start: int, item: Item): (r: seq<Item>)
    ensures var k := if start < 0 then Max(|s| + start, 0) else Min(start, |s|);
            r == s[..k] + [item] + s[k..]
  {
    var k := if start < 0 then Max(|s| + start, 0) else Min(start, |s|);
    s[..k] + [item] + s[k..]
  }

  /** What goes between page 3 and the current page when the current page is not among the first or last three. */
  function LeftOfCurrent(current: int): seq<Item>
  {
    if current - 3 > 2 then [Ellipsis]
    else if current - 3 == 2 then [Page(current - 1, false)]
    else []
  }

  /** What goes between the current page and page totalPages - 2. */
  function RightOfCurrent(totalPages: int, current: int): seq<Item>
  {
    if totalPages - 2 - current > 2 then [Ellipsis]
    else if totalPages - 2 - current == 2 then [Page(current + 1, false)]
    else []
  }

  /** The bar the component builds, for every total and every current page. */
  function Bar(totalPages: int, current: int): seq<Item>
  {
    if totalPages <= 9 then Run(1, totalPages, current)
    else if 1 <= current <= 3 || totalPages - 2 <= current <= totalPages then
      Run(1, 3, current) + [Ellipsis] + Run(totalPages - 2, totalPages, current)
    else
      Run(1, 3, current) + LeftOfCurrent(current) + [Page(current, true)]
      + RightOfCurrent(totalPages, current) + Run(totalPages - 2, totalPages, current)
  }

  /**
   * The layout loop of `PostsPaginatorBar`: push pages 1..totalPages when
   * there are at most nine, otherwise push the first and last three, then
   * splice in the current page, the neighbour that fills a one-page gap and
   * the "..." markers.
   */
  method PageButtons(totalPages: int, currentPage: int) returns (buttons: seq<Item>)
    ensures buttons == Bar(totalPages, currentPage)
  {
    buttons := [];
    if totalPages <= 9 {
      var i := 1;
      while i <= totalPages
        invariant 1 <= i <= Max(totalPages, 0) + 1
        invariant buttons == Run(1, i - 1, currentPage)
      {
        RunSnoc(1, i - 1, currentPage);
        buttons := buttons + [Page(i, i == currentPage)];
        i := i + 1;
      }
    } else {
      var foundPage := false;
      var i := 1;
      while i <= 3
        invariant 1 <= i <= 4
        invariant buttons == Run(1, i - 1, currentPage)
        invariant foundPage <==> 1 <= currentPage < i
      {
        RunSnoc(1, i - 1, currentPage);
        buttons := buttons + [Page(i, i == currentPage)];
        if i == currentPage { foundPage := true; }
        i := i + 1;
      }
      i := totalPages - 2;
      while i <= totalPages
        invariant totalPages - 2 <= i <= totalPages + 1
        invariant buttons == Run(1, 3, currentPage) + Run(totalPages - 2, i - 1, currentPage)
        invariant foundPage <==> 1 <= currentPage <= 3 || totalPages - 2 <= currentPage < i
      {
        RunSnoc(totalPages - 2, i - 1, currentPage);
        buttons := buttons + [Page(i, i == currentPage)];
        if i == currentPage { foundPage := true; }
        i := i + 1;
      }
      ghost var first, last := Run(1, 3, currentPage), Run(totalPages - 2, totalPages, currentPage);
      assert buttons == first + last;
      if foundPage {
        buttons := Splice(buttons, 3, Ellipsis);
        assert buttons == first + [Ellipsis] + last;
      } else {
        buttons := Splice(buttons, 3, Page(currentPage, true));
        assert buttons == first + [Page(currentPage, true)] + last;
        if currentPage - 3 > 2 {
          buttons := Splice(buttons, 3, Ellipsis);
        } else if currentPage - 3 == 2 {
          buttons := Splice(buttons, 3, Page(currentPage - 1, false));
        }
        ghost var left := LeftOfCurrent(currentPage);
        assert buttons == first + left + [Page(currentPage, true)] + last;
        if totalPages - 2 - currentPage > 2 {
          buttons := Splice(buttons, -3, Ellipsis);
        } else if totalPages - 2 - currentPage == 2 {
          buttons := Splice(buttons, -3, Page(currentPage + 1, false));
        }
        assert buttons == first + left + [Page(currentPage, true)] + RightOfCurrent(totalPages, currentPage) + last;
      }
    }
  }

  // ---------------------------------------------------------------------------
  // An independent description of the bar: which pages it shows, and how a
  // sorted list of pages is drawn with "..." wherever pages are left out.
  // ---------------------------------------------------------------------------

  /** The page numbers lo..hi. */
  function Range(lo: int, hi: int): (s: seq<int>)
    ensures |s| == Max(hi - lo + 1, 0)
  {
    seq(Max(hi - lo + 1, 0), i => lo + i)
  }

  /**
   * The pages the bar shows, left to right: all of them when there are at
   * most nine; otherwise the first three, the last three, the current page
   * when it is not one of those, and the page that would otherwise be the
   * only one hidden between the current page and its anchors.
   */
  function Shown(totalPages: int, current: int): seq<int>
  {
    if totalPages <= 9 then Range(1, totalPages)
    else if 1 <= current <= 3 || totalPages - 2 <= current <= totalPages then
      Range(1, 3) + Range(totalPages - 2, totalPages)
    else
      Range(1, 3) + LoneLeft(current) + [current] + LoneRight(totalPages, current)
      + Range(totalPages - 2, totalPages)
  }

  /** The page between 3 and the current page, when it is the only one there. */
  function LoneLeft(current: int): seq<int> { if current - 3 == 2 then [current - 1] else [] }

  /** The page between the current page and totalPages - 2, when it is the only one there. */
  function LoneRight(totalPages: int, current: int): seq<int>
  {
    if totalPages - 2 - current == 2 then [current + 1] else []
  }

  /** What is drawn between two neighbouring shown pages: "..." when any page lies between them. */
  function Gap(a: int, b: int): seq<Item> { if b - a >= 2 then [Ellipsis] else [] }

  /** Draw a list of pages: a button per page, with a "..." where the list skips pages. */
  function Render(s: seq<int>, current: int): seq<Item>
  {
    if |s| == 0 then []
    else if |s| == 1 then [Button(s[0], current)]
    else [Button(s[0], current)] + Gap(s[0], s[1]) + Render(s[1..], current)
  }

  lemma {:induction false} RenderAppend(a: seq<int>, b: seq<int>, current: int)
    requires |a| > 0 && |b| > 0
    ensures Render(a + b, current) == Render(a, current) + Gap(a[|a| - 1], b[0]) + Render(b, current)
    decreases |a|
  {
    if |a| == 1 {
      assert (a + b)[1..] == b;
    } else {
      assert (a + b)[1..] == a[1..] + b;
      RenderAppend(a[1..], b, current);
    }
  }

  lemma {:induction false} RenderRange(lo: int, hi: int, current: int)
    ensures Render(Range(lo, hi), current) == Run(lo, hi, current)
    decreases hi - lo
  {
    if hi - lo + 1 > 1 {
      assert Range(lo, hi)[1..] == Range(lo + 1, hi);
      RenderRange(lo + 1, hi, current);
      assert Run(lo, hi, current) == [Button(lo, current)] + Run(lo + 1, hi, current);
    }
  }

  /** The bar the component builds is the drawing of the pages it means to show, for every input. */
  lemma BarIsRenderedShown(totalPages: int, current: int)
    ensures Bar(totalPages, current) == Render(Shown(totalPages, current), current)
  {
    if totalPages <= 9 {
      RenderRange(1, totalPages, current);
    } else if 1 <= current <= 3 || totalPages - 2 <= current <= totalPages {
      RenderRange(1, 3, current);
      RenderRange(totalPages - 2, totalPages, current);
      RenderAppend(Range(1, 3), Range(totalPages - 2, totalPages), current);
    } else {
      BarIsRenderedShownMiddle(totalPages, current);
    }
  }

  /** The current page with the lone pages beside it, when it is not one of the first or last three. */
  function Middle(tp: int, c: int): seq<int> { LoneLeft(c) + [c] + LoneRight(tp, c) }

  lemma BarIsRenderedShownMiddle(tp: int, c: int)
    requires tp > 9 && !(1 <= c <= 3 || tp - 2 <= c <= tp)
    ensures Bar(tp, c) == Render(Shown(tp, c), c)
  {
    var mid := Middle(tp, c);
    var p1, tail := Run(1, 3, c), Run(tp - 2, tp, c);
    var gapL, gapR := Gap(3, mid[0]), Gap(mid[|mid| - 1], tp - 2);
    RenderShownMiddle(tp, c);
    MiddleDrawn(tp, c);
    calc {
      Bar(tp, c);
      p1 + LeftOfCurrent(c) + [Page(c, true)] + RightOfCurrent(tp, c) + tail;
      { SeqGroupMiddle(p1, LeftOfCurrent(c), [Page(c, true)], RightOfCurrent(tp, c), tail); }
      p1 + (LeftOfCurrent(c) + [Page(c, true)] + RightOfCurrent(tp, c)) + tail;
      p1 + (gapL + Render(mid, c) + gapR) + tail;
      { SeqAssoc5(p1, gapL, Render(mid, c), gapR, tail); }
      p1 + gapL + (Render(mid, c) + gapR + tail);
    }
  }

  lemma RenderShownMiddle(tp: int, c: int)
    requires tp > 9 && !(1 <= c <= 3 || tp - 2 <= c <= tp)
    ensures var mid := Middle(tp, c);
            Render(Shown(tp, c), c)
            == Run(1, 3, c) + Gap(3, mid[0]) + (Render(mid, c) + Gap(mid[|mid| - 1], tp - 2) + Run(tp - 2, tp, c))
  {
    var first, last, mid := Range(1, 3), Range(tp - 2, tp), Middle(tp, c);
    RenderRange(1, 3, c);
    RenderRange(tp - 2, tp, c);
    RenderAppend(mid, last, c);
    assert (mid + last)[0] == mid[0];
    RenderAppend(first, mid + last, c);
    assert Shown(tp, c) == first + (mid + last);
  }

  /** The current page, its lone neighbours and the markers around them are what the splices insert. */
  lemma MiddleDrawn(tp: int, c: int)
    requires tp > 9 && !(1 <= c <= 3 || tp - 2 <= c <= tp)
    ensures var mid := Middle(tp, c);
            Gap(3, mid[0]) + Render(mid, c) + Gap(mid[|mid| - 1], tp - 2)
            == LeftOfCurrent(c) + [Page(c, true)] + RightOfCurrent(tp, c)
  {
    var mid := Middle(tp, c);
    var left: seq<Item> := if c - 3 == 2 then [Page(c - 1, false)] else [];
    var right: seq<Item> := if tp - 2 - c == 2 then [Page(c + 1, false)] else [];
    RenderMiddle(tp, c);
    assert Render(mid, c) == left + [Page(c, true)] + right;
    assert LeftOfCurrent(c) == Gap(3, mid[0]) + left by {
      if c - 3 == 2 { assert mid[0] == 4; }
    }
    assert RightOfCurrent(tp, c) == right + Gap(mid[|mid| - 1], tp - 2) by {
      if tp - 2 - c == 2 { assert mid[|mid| - 1] == c + 1; }
    }
  }

  lemma SeqGroupMiddle<T>(a: seq<T>, b: seq<T>, c: seq<T>, d: seq<T>, e: seq<T>)
    ensures a + b + c + d + e == a + (b + c + d) + e
  {
  }

  lemma SeqAssoc5<T>(a: seq<T>, b: seq<T>, c: seq<T>, d: seq<T>, e: seq<T>)
    ensures a + b + c + d + e == a + (b + c + d + e)
  {
  }

  lemma RenderMiddle(tp: int, c: int)
    requires tp > 9
    ensures Render(LoneLeft(c) + [c] + LoneRight(tp, c), c)
            == (if c - 3 == 2 then [Page(c - 1, false)] else []) + [Page(c, true)]
               + (if tp - 2 - c == 2 then [Page(c + 1, false)] else [])
  {
    var right := LoneRight(tp, c);
    assert Render([c] + right, c) == [Page(c, true)] + (if tp - 2 - c == 2 then [Page(c + 1, false)] else []) by {
      if right != [] { assert ([c] + right)[1..] == right; }
    }
    if c - 3 == 2 {
      assert (LoneLeft(c) + [c] + right)[1..] == [c] + right;
    }
  }

  // ---------------------------------------------------------------------------
  // Properties of a drawn bar
  // ---------------------------------------------------------------------------

  /** Shown pages climb by one, or jump by at least three: never is a single page left out. */
  predicate WellSpread(s: seq<int>)
  {
    forall i :: 0 <= i < |s| - 1 ==> s[i + 1] - s[i] == 1 || s[i + 1] - s[i] >= 3
  }

  predicate PagesIncreasing(b: seq<Item>)
  {
    forall i, j :: 0 <= i < j < |b| && b[i].Page? && b[j].Page? ==> b[i].n < b[j].n
  }

  predicate ActiveIsCurrent(b: seq<Item>, current: int)
  {
    forall i :: 0 <= i < |b| && b[i].Page? ==> (b[i].active <==> b[i].n == current)
  }

  /** Two buttons side by side show consecutive pages: nothing is hidden without a marker. */
  predicate NeighboursConsecutive(b: seq<Item>)
  {
    forall i :: 0 <= i < |b| - 1 && b[i].Page? && b[i + 1].Page? ==> b[i + 1].n == b[i].n + 1
  }

  /** Every "..." stands between two buttons and hides at least two pages. */
  predicate EllipsesHideTwoOrMore(b: seq<Item>)
  {
    forall i :: 0 <= i < |b| && b[i].Ellipsis? ==>
      0 < i < |b| - 1 && b[i - 1].Page? && b[i + 1].Page? && b[i + 1].n - b[i - 1].n - 1 >= 2
  }

  lemma {:induction false} WellSpreadIncreasing(s: seq<int>)
    requires WellSpread(s)
    ensures forall i, j :: 0 <= i < j < |s| ==> s[i] < s[j]
    decreases |s|
  {
    if |s| > 1 {
      var t := s[1..];
      assert WellSpread(t) by {
        forall i | 0 <= i < |t| - 1 ensures t[i + 1] - t[i] == 1 || t[i + 1] - t[i] >= 3 {
          assert t[i] == s[i + 1] && t[i + 1] == s[i + 2];
        }
      }
      WellSpreadIncreasing(t);
      forall i, j | 0 <= i < j < |s| ensures s[i] < s[j] {
        if i == 0 {
          assert s[0] < s[1];
          if j > 1 { assert s[1] == t[0] && s[j] == t[j - 1]; }
        } else {
          assert s[i] == t[i - 1] && s[j] == t[j - 1];
        }
      }
    }
  }

  /** A drawing starts with the first listed page's button and ends with the last one's. */
  lemma {:induction false} RenderEnds(s: seq<int>, current: int)
    requires |s| > 0
    ensures var r := Render(s, current);
            |r| > 0 && r[0] == Button(s[0], current) && r[|r| - 1] == Button(s[|s| - 1], current)
    decreases |s|
  {
    if |s| > 1 {
      RenderEnds(s[1..], current);
    }
  }

  /** Every element of `r` is a "..." or the button of a page of `s`. */
  predicate ButtonsOf(r: seq<Item>, s: seq<int>, current: int)
  {
    forall i :: 0 <= i < |r| ==> r[i].Ellipsis? || (r[i].n in s && r[i] == Button(r[i].n, current))
  }

  /** Every drawn element is a "..." or the button of a listed page. */
  lemma {:induction false} RenderElements(s: seq<int>, current: int)
    ensures ButtonsOf(Render(s, current), s, current)
    decreases |s|
  {
    if |s| > 1 {
      var t := s[1..];
      RenderElements(t, current);
      var r, p, rt := Render(s, current), [Button(s[0], current)] + Gap(s[0], s[1]), Render(t, current);
      assert r == p + rt;
      forall i | 0 <= i < |r| ensures r[i].Ellipsis? || (r[i].n in s && r[i] == Button(r[i].n, current)) {
        if i >= |p| {
          assert r[i] == rt[i - |p|];
          if rt[i - |p|].Page? {
            assert rt[i - |p|].n in t;
            var k :| 0 <= k < |t| && t[k] == rt[i - |p|].n;
            assert s[k + 1] == t[k];
          }
        }
      }
    }
  }

  /** Every listed page has its button in the drawing. */
  lemma {:induction false} RenderCovers(s: seq<int>, current: int)
    ensures forall k :: k in s ==> Button(k, current) in Render(s, current)
    decreases |s|
  {
    if |s| > 1 {
      var t := s[1..];
      RenderCovers(t, current);
      var r, p, rt := Render(s, current), [Button(s[0], current)] + Gap(s[0], s[1]), Render(t, current);
      assert r == p + rt;
      forall k | k in s ensures Button(k, current) in r {
        if k != s[0] { assert k in t; assert Button(k, current) in rt; }
      }
    }
  }

  /** Drawing a well-spread list keeps the pages in order. */
  lemma {:induction false} RenderIncreasing(s: seq<int>, current: int)
    requires WellSpread(s)
    ensures PagesIncreasing(Render(s, current))
    decreases |s|
  {
    if |s| > 1 {
      var t := s[1..];
      assert WellSpread(t) by {
        forall i | 0 <= i < |t| - 1 ensures t[i + 1] - t[i] == 1 || t[i + 1] - t[i] >= 3 {
          assert t[i] == s[i + 1] && t[i + 1] == s[i + 2];
        }
      }
      RenderIncreasing(t, current);
      RenderElements(t, current);
      WellSpreadIncreasing(s);
      var r, p, rt := Render(s, current), [Button(s[0], current)] + Gap(s[0], s[1]), Render(t, current);
      assert r == p + rt;
      forall i, j | 0 <= i < j < |r| && r[i].Page? && r[j].Page? ensures r[i].n < r[j].n {
        assert r[j] == rt[j - |p|];
        if i >= |p| {
          assert r[i] == rt[i - |p|];
        } else {
          assert i == 0;
          assert rt[j - |p|].Page? && rt[j - |p|].n in t;
          var k :| 0 <= k < |t| && t[k] == r[j].n;
          assert s[k + 1] == t[k];
        }
      }
    }
  }

  /** Drawing a well-spread list puts consecutive pages side by side and a "..." only over two or more pages. */
  lemma {:induction false} RenderSpacing(s: seq<int>, current: int)
    requires WellSpread(s)
    ensures NeighboursConsecutive(Render(s, current))
    ensures EllipsesHideTwoOrMore(Render(s, current))
    decreases |s|
  {
    if |s| > 1 {
      var t := s[1..];
      assert WellSpread(t) by {
        forall i | 0 <= i < |t| - 1 ensures t[i + 1] - t[i] == 1 || t[i + 1] - t[i] >= 3 {
          assert t[i] == s[i + 1] && t[i + 1] == s[i + 2];
        }
      }
      RenderSpacing(t, current);
      RenderEnds(t, current);
      var r, p, rt := Render(s, current), [Button(s[0], current)] + Gap(s[0], s[1]), Render(t, current);
      assert r == p + rt;
      assert rt[0] == Button(s[1], current);
      forall i | 0 <= i < |r| - 1 && r[i].Page? && r[i + 1].Page? ensures r[i + 1].n == r[i].n + 1 {
        if i >= |p| {
          assert r[i] == rt[i - |p|] && r[i + 1] == rt[i + 1 - |p|];
        } else {
          assert i == 0 && |p| == 1;
        }
      }
      forall i | 0 <= i < |r| && r[i].Ellipsis?
        ensures 0 < i < |r| - 1 && r[i - 1].Page? && r[i + 1].Page? && r[i + 1].n - r[i - 1].n - 1 >= 2
      {
        if i >= |p| {
          var k := i - |p|;
          assert r[i] == rt[k];
          assert r[i - 1] == rt[k - 1] && r[i + 1] == rt[k + 1];
        } else {
          assert i == 1 && |p| == 2 && r[2] == rt[0];
        }
      }
    }
  }

  lemma WellSpreadAppend(a: seq<int>, b: seq<int>)
    requires WellSpread(a) && WellSpread(b)
    requires |a| > 0 && |b| > 0 ==> b[0] - a[|a| - 1] == 1 || b[0] - a[|a| - 1] >= 3
    ensures WellSpread(a + b)
  {
    var s := a + b;
    forall i | 0 <= i < |s| - 1 ensures s[i + 1] - s[i] == 1 || s[i + 1] - s[i] >= 3 {
      if i + 1 < |a| {
        assert s[i] == a[i] && s[i + 1] == a[i + 1];
      } else if i >= |a| {
        assert s[i] == b[i - |a|] && s[i + 1] == b[i + 1 - |a|];
      }
    }
  }

  lemma RangeWellSpread(lo: int, hi: int)
    ensures WellSpread(Range(lo, hi))
    ensures forall k :: k in Range(lo, hi) ==> lo <= k <= hi
  {
    var r := Range(lo, hi);
    forall i | 0 <= i < |r| - 1 ensures r[i + 1] - r[i] == 1 || r[i + 1] - r[i] >= 3 {
      assert r[i] == lo + i && r[i + 1] == lo + i + 1;
    }
  }

  lemma MiddleWellSpread(tp: int, c: int)
    requires tp > 9 && 3 < c < tp - 2
    ensures var mid := Middle(tp, c);
            && WellSpread(mid) && c in mid
            && (mid[0] - 3 == 1 || mid[0] - 3 >= 3)
            && (tp - 2 - mid[|mid| - 1] == 1 || tp - 2 - mid[|mid| - 1] >= 3)
            && forall k :: k in mid ==> 4 <= k <= tp - 3
  {
    var mid := Middle(tp, c);
    assert mid[|LoneLeft(c)|] == c;
    forall i | 0 <= i < |mid| - 1 ensures mid[i + 1] - mid[i] == 1 {
      if LoneLeft(c) == [] {
        assert mid[0] == c && mid[1] == c + 1;
      } else {
        assert |mid| == 2 && i == 0;
        assert mid[0] == c - 1 && mid[1] == c;
      }
    }
  }

  /** On a page that exists, the shown pages are well spread, lie in 1..totalPages and include the current one. */
  lemma ShownWellSpread(tp: int, c: int)
    requires tp > 9 && 1 <= c <= tp
    ensures WellSpread(Shown(tp, c))
    ensures c in Shown(tp, c)
    ensures forall k :: k in Shown(tp, c) ==> 1 <= k <= tp
  {
    if 1 <= c <= 3 || tp - 2 <= c <= tp {
      ShownAtEdgesWellSpread(tp, c);
    } else {
      ShownMiddleWellSpread(tp, c);
    }
  }

  lemma ShownAtEdgesWellSpread(tp: int, c: int)
    requires tp > 9 && (1 <= c <= 3 || tp - 2 <= c <= tp)
    ensures WellSpread(Shown(tp, c))
    ensures c in Shown(tp, c)
    ensures forall k :: k in Shown(tp, c) ==> 1 <= k <= tp
  {
    var first, last := Range(1, 3), Range(tp - 2, tp);
    RangeWellSpread(1, 3);
    RangeWellSpread(tp - 2, tp);
    WellSpreadAppend(first, last);
    assert Shown(tp, c) == first + last;
    if c <= 3 { assert first[c - 1] == c; } else { assert last[c - (tp - 2)] == c; }
  }

  lemma ShownMiddleWellSpread(tp: int, c: int)
    requires tp > 9 && 3 < c < tp - 2
    ensures WellSpread(Shown(tp, c))
    ensures c in Shown(tp, c)
    ensures forall k :: k in Shown(tp, c) ==> 1 <= k <= tp
  {
    var first, last, mid := Range(1, 3), Range(tp - 2, tp), Middle(tp, c);
    var shown := first + (mid + last);
    assert Shown(tp, c) == shown;
    RangeWellSpread(1, 3);
    RangeWellSpread(tp - 2, tp);
    MiddleWellSpread(tp, c);
    assert WellSpread(shown) by {
      WellSpreadAppend(mid, last);
      assert (mid + last)[0] == mid[0];
      WellSpreadAppend(first, mid + last);
    }
    forall k | k in shown ensures 1 <= k <= tp {
      assert k in first || k in mid || k in last;
    }
  }

  /**
   * With more than nine pages and a current page that exists, page numbers
   * strictly increase along the bar and stay within 1..totalPages; buttons
   * side by side show consecutive pages, and every "..." sits between two
   * buttons and stands for at least two pages. So an ellipsis appears
   * between two shown pages exactly when two or more pages lie between
   * them, and a gap of a single page is always filled by its button.
   */
  lemma BarOrderedAndSpaced(totalPages: int, current: int)
    requires totalPages > 9 && 1 <= current <= totalPages
    ensures var b := Bar(totalPages, current);
            && PagesIncreasing(b)
            && NeighboursConsecutive(b)
            && EllipsesHideTwoOrMore(b)
            && (forall i :: 0 <= i < |b| && b[i].Page? ==> 1 <= b[i].n <= totalPages)
  {
    var s := Shown(totalPages, current);
    BarIsRenderedShown(totalPages, current);
    ShownWellSpread(totalPages, current);
    RenderIncreasing(s, current);
    RenderSpacing(s, current);
    RenderElements(s, current);
  }

  /**
   * With more than nine pages and a current page that exists, exactly one
   * button is highlighted, and it is the current page's.
   */
  lemma BarSingleActive(totalPages: int, current: int)
    requires totalPages > 9 && 1 <= current <= totalPages
    ensures var b := Bar(totalPages, current);
            && ActiveIsCurrent(b, current)
            && Page(current, true) in b
            && (forall i, j :: 0 <= i < |b| && 0 <= j < |b| && b[i].Page? && b[i].active && b[j].Page? && b[j].active
                  ==> i == j)
  {
    var s, b := Shown(totalPages, current), Bar(totalPages, current);
    BarIsRenderedShown(totalPages, current);
    ShownWellSpread(totalPages, current);
    RenderElements(s, current);
    RenderCovers(s, current);
    RenderIncreasing(s, current);
  }

  /** Three buttons in a row. */
  lemma RunOfThree(lo: int, current: int)
    ensures Run(lo, lo + 2, current) == [Button(lo, current), Button(lo + 1, current), Button(lo + 2, current)]
  {
    var r := Run(lo, lo + 2, current);
    assert r[0] == Button(lo, current) && r[1] == Button(lo + 1, current) && r[2] == Button(lo + 2, current);
  }

  /**
   * With more than nine pages the bar always begins with pages 1, 2, 3,
   * always ends with the last three pages, and holds seven to nine items.
   */
  lemma BarAnchors(totalPages: int, current: int)
    requires totalPages > 9
    ensures var b := Bar(totalPages, current);
            && 7 <= |b| <= 9
            && b[..3] == [Page(1, current == 1), Page(2, current == 2), Page(3, current == 3)]
            && b[|b| - 3..] == [Page(totalPages - 2, current == totalPages - 2),
                                Page(totalPages - 1, current == totalPages - 1),
                                Page(totalPages, current == totalPages)]
  {
    var b, tail := Bar(totalPages, current), Run(totalPages - 2, totalPages, current);
    RunOfThree(1, current);
    RunOfThree(totalPages - 2, current);
    assert b[|b| - 3..] == tail;
  }

  /**
   * When the current page is one of the first or last three, the bar is
   * exactly 1, 2, 3, "...", totalPages - 2, totalPages - 1, totalPages.
   */
  lemma BarAtEdges(totalPages: int, current: int)
    requires totalPages > 9
    requires 1 <= current <= 3 || totalPages - 2 <= current <= totalPages
    ensures Bar(totalPages, current)
            == [Page(1, current == 1), Page(2, current == 2), Page(3, current == 3), Ellipsis,
                Page(totalPages - 2, current == totalPages - 2),
                Page(totalPages - 1, current == totalPages - 1),
                Page(totalPages, current == totalPages)]
  {
    RunOfThree(1, current);
    RunOfThree(totalPages - 2, current);
  }

  /** With at most nine pages the bar is the pages 1..totalPages in order, no "...", only the current one highlighted. */
  lemma SmallBar(totalPages: int, current: int)
    requires totalPages <= 9
    ensures var b := Bar(totalPages, current);
            && |b| == Max(totalPages, 0)
            && forall i :: 0 <= i < |b| ==> b[i] == Page(i + 1, i + 1 == current)
  {
    var b := Bar(totalPages, current);
    assert b == Run(1, totalPages, current);
    forall i | 0 <= i < |b| ensures b[i] == Page(i + 1, i + 1 == current) {
      assert b[i] == Button(1 + i, current);
    }
  }

  /**
   * As written, a `page` parameter of 0 on a feed of ten pages puts a
   * highlighted button "0" after page 3, out of order.
   */
  lemma BarOutOfRangeAsWritten()
    ensures var b := Bar(10, CurrentPageAsWritten(0, 10));
            && b[3] == Page(0, true) && b[2] == Page(3, false)
            && !PagesIncreasing(b)
  {
    var b := Bar(10, 0);
    assert b[2] == Page(3, false) && b[3] == Page(0, true);
  }

  /** With the intended current page, every request yields an ordered, well-spaced bar with one highlighted button. */
  lemma BarForAnyRequest(totalPosts: int, requested: int)
    requires TotalPages(totalPosts) > 9
    ensures var pages := TotalPages(totalPosts);
            var current := CurrentPage(requested, pages);
            var b := Bar(pages, current);
            && PagesIncreasing(b) && NeighboursConsecutive(b) && EllipsesHideTwoOrMore(b)
            && ActiveIsCurrent(b, current) && Page(current, true) in b
  {
    var pages := TotalPages(totalPosts);
    BarOrderedAndSpaced(pages, CurrentPage(requested, pages));
    BarSingleActive(pages, CurrentPage(requested, pages));
  }
}
