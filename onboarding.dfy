/** The onboarding pager: a page index moved by Next and Back, with Skip and
    Next-on-the-last-page leaving for the login screen, and the footer's
    dots and button labels drawn from the index. */
module Onboarding {

  /** The onboarding screen has two pages. */
  const PageCount: nat := 2

  predicate InRange(page: int)
  {
    0 <= page < PageCount
  }

  datatype Action = Next | Back | Skip

  /** The page index after a handler, and whether it navigated to the login
      screen. */
  datatype Outcome = Outcome(page: int, toLogin: bool)

  /** `handleNext`, `handleBack` and `handleSkip` on page `page`. */
  function Handle(page: int, a: Action): (r: Outcome)
    ensures r.toLogin <==> a == Skip || (a == Next && page >= PageCount - 1)
    ensures r.toLogin ==> r.page == page
    ensures -1 <= r.page - page <= 1
  {
    match a
    case Next => if page < PageCount - 1 then Outcome(page + 1, false) else Outcome(page, true)
    case Back => if page > 0 then Outcome(page - 1, false) else Outcome(page, false)
    case Skip => Outcome(page, true)
  }

  /** Every handler keeps the page index within the pages, moves it by at
      most one, and leaves for the login screen only without moving it. */
  lemma HandleKeepsRange(page: int, a: Action)
    requires InRange(page)
    ensures InRange(Handle(page, a).page)
    ensures -1 <= Handle(page, a).page - page <= 1
    ensures Handle(page, a).toLogin ==> Handle(page, a).page == page
  {
  }

  /** Next moves one page on before the last page, and leaves from it. */
  lemma NextAdvancesOrLeaves(page: int)
    requires InRange(page)
    ensures page < PageCount - 1 <==> Handle(page, Next) == Outcome(page + 1, false)
    ensures page == PageCount - 1 <==> Handle(page, Next).toLogin
  {
  }

  /** Back moves one page back after the first page, and does nothing on it. */
  lemma BackRetreatsOrStays(page: int)
    requires InRange(page)
    ensures page > 0 ==> Handle(page, Back) == Outcome(page - 1, false)
    ensures page == 0 ==> Handle(page, Back) == Outcome(0, false)
  {
  }

  /** Skip always leaves, from any page, without changing it. */
  lemma SkipLeaves(page: int)
    ensures Handle(page, Skip) == Outcome(page, true)
  {
  }

  function RunAll(page: int, acts: seq<Action>): int
    decreases |acts|
  {
    if acts == [] then page else RunAll(Handle(page, acts[0]).page, acts[1..])
  }

  /** Whatever the user presses, the page index stays within the pages. */
  lemma {:induction false} RunAllKeepsRange(page: int, acts: seq<Action>)
    requires InRange(page)
    ensures InRange(RunAll(page, acts))
    decreases |acts|
  {
    if acts != [] {
      HandleKeepsRange(page, acts[0]);
      RunAllKeepsRange(Handle(page, acts[0]).page, acts[1..]);
    }
  }

  /** The left footer button: Skip on the first page, Back on the others. */
  datatype LeftButton = SkipButton | BackButton

  function Left(page: int): (b: LeftButton)
    ensures b == SkipButton <==> page == 0
  {
    if page == 0 then SkipButton else BackButton
  }

  /** The right footer button's title. */
  function RightLabel(page: int): (s: string)
    ensures s == "Get Started" <==> page == PageCount - 1
    ensures s != "Get Started" ==> s == "Next"
  {
    if page == PageCount - 1 then "Get Started" else "Next"
  }

  /** The action each footer button runs. */
  function LeftAction(page: int): Action
  {
    if Left(page) == SkipButton then Skip else Back
  }

  /** The left button never moves below the first page and leaves only from
      the first page; the right button is labelled "Get Started" exactly
      where it leaves. */
  lemma FooterButtons(page: int)
    requires InRange(page)
    ensures Handle(page, LeftAction(page)).toLogin <==> page == 0
    ensures InRange(Handle(page, LeftAction(page)).page)
    ensures Handle(page, Next).toLogin <==> RightLabel(page) == "Get Started"
  {
  }

  /** The dots, one per page: whether each is drawn active. */
  function Dots(page: int): (dots: seq<bool>)
    ensures |dots| == PageCount
    ensures forall i :: 0 <= i < PageCount ==> (dots[i] <==> i == page)
  {
    seq(PageCount, i requires 0 <= i < PageCount => page == i)
  }

  /** Exactly one dot is active on every page: the current page's. */
  lemma ExactlyOneDot(page: int)
    requires InRange(page)
    ensures multiset(Dots(page))[true] == 1
  {
    var d := Dots(page);
    if page == 0 {
      assert d == [true, false];
    } else {
      assert d == [false, true];
    }
  }

  /** The pager's state cell. */
  class Pager {
    var currentPage: int

    constructor ()
      ensures currentPage == 0 && InRange(currentPage)
    {
      currentPage := 0;
    }

    /** `handleNext`: the next page before the last; on the last, the login
        screen (the scroll animation is not part of this model). */
    method HandleNext() returns (toLogin: bool)
      modifies this
      ensures Outcome(currentPage, toLogin) == Handle(old(currentPage), Next)
    {
      if currentPage < PageCount - 1 {
        var nextPage := currentPage + 1;
        currentPage := nextPage;
        toLogin := false;
      } else {
        toLogin := true;
      }
    }

    /** `handleBack`: the previous page after the first; nothing on it. */
    method HandleBack() returns (toLogin: bool)
      modifies this
      ensures Outcome(currentPage, toLogin) == Handle(old(currentPage), Back)
    {
      toLogin := false;
      if currentPage > 0 {
        var prevPage := currentPage - 1;
        currentPage := prevPage;
      }
    }

    /** `handleSkip`: the login screen. */
    method HandleSkip() returns (toLogin: bool)
      ensures Outcome(currentPage, toLogin) == Handle(currentPage, Skip)
    {
      toLogin := true;
    }
  }
}
