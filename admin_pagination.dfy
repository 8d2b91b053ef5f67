/**
 * The pagination controls under the user table of the admin page
 * (`renderUserList` in app/static/js/admin.js): a "Previous" button, a
 * window of page buttons around the current page with the first and last
 * page always shown, an ellipsis where the window leaves a gap, and a "Next"
 * button. The HTML text is modelled as the list of the controls it renders.
 */
module AdminPagination {
  import opened Common

  /**
   * One rendered control. An ellipsis carries the page position at which it
   * is emitted; the markup itself shows only "...".
   */
  datatype Control =
    | Previous(target: int)
    | PageButton(number: int, active: bool)
    | Ellipsis(at: int)
    | Next(target: int)

  /** The page position of a button or an ellipsis. */
  function Position(c: Control): int
  {
    match c
    case Previous(t) => t
    case PageButton(n, _) => n
    case Ellipsis(a) => a
    case Next(t) => t
  }

  /** Page `i` gets a button: the first page, the last page, or a neighbour of the current page. */
  predicate ShowsButton(page: int, pages: int, i: int)
  {
    i == 1 || i == pages || (page - 1 <= i <= page + 1)
  }

  /** What the loop emits at position `i`: a button, an ellipsis two pages off the current one, or nothing. */
  function Slot(page: int, pages: int, i: int): seq<Control>
  {
    if ShowsButton(page, pages, i) then [PageButton(i, i == page)]
    else if i == page - 2 || i == page + 2 then [Ellipsis(i)]
    else []
  }

  /** The controls the loop emits for positions 1 to `n`. */
  function Slots(page: int, pages: int, n: int): seq<Control>
    decreases n
  {
    if n <= 0 then [] else Slots(page, pages, n - 1) + Slot(page, pages, n)
  }

  /** All the pagination controls: none unless there is more than one page. */
  function Controls(page: int, pages: int): seq<Control>
  {
    if pages <= 1 then []
    else
      (if page > 1 then [Previous(page - 1)] else []) +
      Slots(page, pages, pages) +
      (if page < pages then [Next(page + 1)] else [])
  }

  /** The pagination part of `renderUserList`. */
  method RenderPagination(page: int, pages: int) returns (controls: seq<Control>)
    ensures controls == Controls(page, pages)
  {
    controls := [];
    if pages > 1 {
      if page > 1 {
        controls := controls + [Previous(page - 1)];
      }
      var head := controls;
      for i := 1 to pages + 1
        invariant controls == head + Slots(page, pages, i - 1)
      {
        ghost var before := controls;
        if i == 1 || i == pages || (i >= page - 1 && i <= page + 1) {
          controls := controls + [PageButton(i, i == page)];
        } else if i == page - 2 || i == page + 2 {
          controls := controls + [Ellipsis(i)];
        }
        assert controls == before + Slot(page, pages, i);
        assert Slots(page, pages, i) == Slots(page, pages, i - 1) + Slot(page, pages, i);
        assert controls == head + Slots(page, pages, i) by {
          AppendAssociative(head, Slots(page, pages, i - 1), Slot(page, pages, i));
        }
      }
      if page < pages {
        controls := controls + [Next(page + 1)];
      }
    }
  }

  /**
   * The controls of positions 1 to `n`: a button exactly for each shown page,
   * active exactly for the current page; an ellipsis exactly two pages off the
   * current one where that page has no button; nothing else; all in
   * increasing order of position.
   */
  lemma {:induction false} SlotsShape(page: int, pages: int, n: int)
    ensures forall c :: c in Slots(page, pages, n) ==> c.PageButton? || c.Ellipsis?
    ensures forall i, a :: PageButton(i, a) in Slots(page, pages, n) <==>
      1 <= i <= n && ShowsButton(page, pages, i) && a == (i == page)
    ensures forall x :: Ellipsis(x) in Slots(page, pages, n) <==>
      1 <= x <= n && !ShowsButton(page, pages, x) && (x == page - 2 || x == page + 2)
    ensures forall j, k :: 0 <= j < k < |Slots(page, pages, n)| ==>
      Position(Slots(page, pages, n)[j]) < Position(Slots(page, pages, n)[k])
    decreases n
  {
    if n > 0 {
      SlotsShape(page, pages, n - 1);
      var init := Slots(page, pages, n - 1);
      var q := Slots(page, pages, n);
      assert forall c :: c in init ==> Position(c) <= n - 1 by {
        forall c | c in init ensures Position(c) <= n - 1 {
          if c.PageButton? {
            assert PageButton(c.number, c.active) in init;
          } else {
            assert Ellipsis(c.at) in init;
          }
        }
      }
      forall j, k | 0 <= j < k < |q| ensures Position(q[j]) < Position(q[k]) {
        if k >= |init| {
          assert q[j] in init;
        }
      }
    }
  }

  /**
   * The controls of `renderUserList`: none for a single page; otherwise
   * "Previous" first exactly when the current page is not the first, "Next"
   * last exactly when it is not the last, and in between the buttons and
   * ellipses of every position from 1 to the last page.
   */
  lemma ControlsShape(page: int, pages: int)
    ensures pages <= 1 ==> Controls(page, pages) == []
    ensures pages > 1 ==>
      var cs := Controls(page, pages);
      (cs[0].Previous? <==> page > 1) && (cs[0].Previous? ==> cs[0].target == page - 1) &&
      (cs[|cs| - 1].Next? <==> page < pages) && (cs[|cs| - 1].Next? ==> cs[|cs| - 1].target == page + 1)
    ensures pages > 1 ==>
      (forall i, a :: PageButton(i, a) in Controls(page, pages) <==>
        1 <= i <= pages && ShowsButton(page, pages, i) && a == (i == page)) &&
      (forall x :: Ellipsis(x) in Controls(page, pages) <==>
        1 < x < pages && (x == page - 2 || x == page + 2))
  {
    if pages > 1 {
      SlotsShape(page, pages, pages);
      var pre := if page > 1 then [Previous(page - 1)] else [];
      var mid := Slots(page, pages, pages);
      var post := if page < pages then [Next(page + 1)] else [];
      var cs := Controls(page, pages);
      assert cs == pre + mid + post;
      assert PageButton(1, 1 == page) in mid;
      assert |mid| > 0;
      assert cs[0] == if page > 1 then Previous(page - 1) else mid[0];
      assert cs[|cs| - 1] == if page < pages then Next(page + 1) else mid[|mid| - 1];
      assert mid[0] in mid && mid[|mid| - 1] in mid;
      assert forall c :: c in cs ==> c in pre || c in mid || c in post;
    }
  }
}
