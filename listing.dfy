/** The listing page (`Home`): the state it keeps, a fetch as a start step
    and a completion step, page changes, and the resets to page 1 after an
    authentication change, a login and a blog creation. */
module Listing {
  import opened Common
  import opened Pagination

  /** What the backend's paged select returns: the rows and the exact
      count (which may be missing), or an error message. */
  datatype Outcome = Ok(rows: seq<Blog>, count: Option<nat>) | Err(message: string)

  /** The signed-in user shown in the header. */
  datatype HeaderUser = HeaderUser(email: Option<string>)

  /** The header's user for an optional authenticated user. */
  function HeaderFor(u: Option<AuthUser>): (h: Option<HeaderUser>)
    ensures h.Some? <==> u.Some?
    ensures u.Some? ==> h.value.email == u.value.email
  {
    match u
    case Some(a) => Some(HeaderUser(a.email))
    case None => None
  }

  class HomePage {
    var blogs: seq<Blog>
    var loading: bool
    var page: int
    var totalCount: nat
    var error: Option<string>
    var user: Option<HeaderUser>
    var showLoginModal: bool
    var showCreateModal: bool
    var isPageChanging: bool
    var refreshKey: nat
    /** The row ranges requested from the backend, oldest first. */
    ghost var requests: seq<RowRange>

    /** Pages are numbered from 1. */
    ghost predicate Valid()
      reads this
    {
      page >= 1
    }

    /** The initial state: loading page 1, nothing fetched yet. */
    constructor ()
      ensures Valid()
      ensures blogs == [] && loading && page == 1 && totalCount == 0 && error == None
      ensures user == None && !showLoginModal && !showCreateModal
      ensures !isPageChanging && refreshKey == 0 && requests == []
    {
      blogs := [];
      loading := true;
      page := 1;
      totalCount := 0;
      error := None;
      user := None;
      showLoginModal := false;
      showCreateModal := false;
      isPageChanging := false;
      refreshKey := 0;
      requests := [];
    }

    /** `totalPages`, as shown in "Page p of n". */
    function PageCount(): (n: int)
      reads this
      ensures n >= 1
    {
      TotalPages(totalCount)
    }

    /** "Loading blogs..." is shown: only while loading, and never during a
        page change, which keeps the current list on screen instead. */
    function ShowsLoadingText(): (b: bool)
      reads this
      ensures !loading ==> !b
      ensures isPageChanging ==> !b
    {
      loading && !isPageChanging
    }

    /** "No blogs found." is shown: the list is empty, no error message is
        on screen (`!error` is also true for an empty message) and the
        loading text is not shown. */
    function ShowsNoBlogs(): (b: bool)
      reads this
      ensures b ==> !loading && blogs == [] && !ShowsLoadingText()
      ensures b ==> error.None? || error == Some("")
    {
      !loading && Falsy(error) && blogs == []
    }

    /** The start of `fetchBlogs(pageToFetch)`: the full-page loading flag is
        raised only when no page change is in progress, the error is
        cleared, and the range of the page is requested. */
    method BeginFetch(pageToFetch: int)
      modifies this
      ensures !old(isPageChanging) ==> loading && ShowsLoadingText()
      ensures old(isPageChanging) ==> loading == old(loading) && !ShowsLoadingText()
      ensures error == None
      ensures requests == old(requests) + [PageRange(pageToFetch)]
      ensures blogs == old(blogs) && page == old(page) && totalCount == old(totalCount)
      ensures user == old(user) && showLoginModal == old(showLoginModal)
      ensures showCreateModal == old(showCreateModal)
      ensures isPageChanging == old(isPageChanging) && refreshKey == old(refreshKey)
    {
      if !isPageChanging {
        loading := true;
      }
      error := None;
      requests := requests + [PageRange(pageToFetch)];
    }

    /** The completion of a fetch. A failure shows the message and empties
        the list; a success replaces the list, takes the count (0 when it is
        missing) and bumps the refresh key by one. Either way nothing is
        loading or changing page any more. */
    method CompleteFetch(outcome: Outcome)
      modifies this
      ensures !loading && !isPageChanging && !ShowsLoadingText()
      ensures outcome.Err? ==> error == Some(outcome.message) && blogs == [] && totalCount == 0
      ensures outcome.Err? ==> refreshKey == old(refreshKey)
      ensures outcome.Err? && outcome.message != "" ==> !ShowsNoBlogs()
      ensures outcome.Ok? ==> error == old(error) && blogs == outcome.rows
      ensures outcome.Ok? ==> totalCount == GetOr(outcome.count, 0)
      ensures outcome.Ok? ==> refreshKey == old(refreshKey) + 1
      ensures page == old(page) && user == old(user) && requests == old(requests)
      ensures showLoginModal == old(showLoginModal) && showCreateModal == old(showCreateModal)
    {
      match outcome {
        case Err(m) =>
          error := Some(m);
          blogs := [];
          totalCount := 0;
        case Ok(rows, count) =>
          blogs := rows;
          totalCount := GetOr(count, 0);
          refreshKey := refreshKey + 1;
      }
      loading := false;
      isPageChanging := false;
    }

    /** `fetchBlogs(pageToFetch)` run to completion: one range is requested;
        a success clears the error, so "No blogs found." is shown exactly
        when it returned no rows or failed with an empty message. */
    method FetchBlogs(pageToFetch: int, outcome: Outcome)
      modifies this
      ensures requests == old(requests) + [PageRange(pageToFetch)]
      ensures !loading && !isPageChanging
      ensures outcome.Err? ==> error == Some(outcome.message) && blogs == [] && totalCount == 0
      ensures outcome.Err? ==> refreshKey == old(refreshKey)
      ensures outcome.Ok? ==> error == None && blogs == outcome.rows
      ensures outcome.Ok? ==> totalCount == GetOr(outcome.count, 0)
      ensures outcome.Ok? ==> refreshKey == old(refreshKey) + 1
      ensures ShowsNoBlogs() <==>
                (outcome.Ok? && outcome.rows == []) || (outcome.Err? && outcome.message == "")
      ensures page == old(page) && user == old(user)
      ensures showLoginModal == old(showLoginModal) && showCreateModal == old(showCreateModal)
    {
      BeginFetch(pageToFetch);
      CompleteFetch(outcome);
    }

    /** `onPageChange(newPage)`: the current page changes nothing; another
        page is selected and marked as a page change. A page numbered from 1
        keeps the state valid. */
    method OnPageChange(newPage: int)
      modifies this
      ensures old(Valid()) && newPage >= 1 ==> Valid()
      ensures newPage == old(page) ==> unchanged(this)
      ensures newPage != old(page) ==> page == newPage && isPageChanging
      ensures blogs == old(blogs) && loading == old(loading) && totalCount == old(totalCount)
      ensures error == old(error) && user == old(user) && refreshKey == old(refreshKey)
      ensures showLoginModal == old(showLoginModal) && showCreateModal == old(showCreateModal)
      ensures requests == old(requests)
    {
      if newPage != page {
        isPageChanging := true;
        page := newPage;
      }
    }

    /** Previous, which is only clickable when enabled: one page back, and
        still a valid page. */
    method ClickPrevious()
      requires Valid() && !PreviousDisabled(page)
      modifies this
      ensures Valid()
      ensures page == old(page) - 1 && isPageChanging
      ensures blogs == old(blogs) && loading == old(loading) && totalCount == old(totalCount)
      ensures error == old(error) && refreshKey == old(refreshKey) && requests == old(requests)
      ensures user == old(user) && showLoginModal == old(showLoginModal)
      ensures showCreateModal == old(showCreateModal)
    {
      OnPageChange(PreviousTarget(page));
    }

    /** Next, which is only clickable when enabled: one page on, and not
        past the last page. */
    method ClickNext()
      requires Valid() && !NextDisabled(page, PageCount())
      modifies this
      ensures Valid()
      ensures page == old(page) + 1 && page <= PageCount() && isPageChanging
      ensures blogs == old(blogs) && loading == old(loading) && totalCount == old(totalCount)
      ensures error == old(error) && refreshKey == old(refreshKey) && requests == old(requests)
      ensures user == old(user) && showLoginModal == old(showLoginModal)
      ensures showCreateModal == old(showCreateModal)
    {
      OnPageChange(NextTarget(page, PageCount()));
    }

    /** `fetchUser`, each time the effect runs (on mount and whenever
        `fetchBlogs` changes): the header shows the authenticated user,
        or nobody. */
    method FetchUser(reply: AuthReply)
      modifies this
      ensures user == HeaderFor(reply.user)
      ensures blogs == old(blogs) && loading == old(loading) && page == old(page)
      ensures totalCount == old(totalCount) && error == old(error)
      ensures isPageChanging == old(isPageChanging) && refreshKey == old(refreshKey)
      ensures showLoginModal == old(showLoginModal) && showCreateModal == old(showCreateModal)
      ensures requests == old(requests)
    {
      user := HeaderFor(reply.user);
    }

    /** The auth-state listener: whatever the session, the header follows
        it, the page goes back to 1 and page 1 is fetched. */
    method OnAuthStateChange(sessionUser: Option<AuthUser>, outcome: Outcome)
      modifies this
      ensures Valid() && page == 1
      ensures user == HeaderFor(sessionUser)
      ensures requests == old(requests) + [PageRange(1)]
      ensures outcome.Ok? ==> blogs == outcome.rows && error == None
      ensures outcome.Ok? ==> totalCount == GetOr(outcome.count, 0) && refreshKey == old(refreshKey) + 1
      ensures outcome.Err? ==> blogs == [] && error == Some(outcome.message)
      ensures outcome.Err? ==> totalCount == 0 && refreshKey == old(refreshKey)
      ensures !loading && !isPageChanging
      ensures showLoginModal == old(showLoginModal) && showCreateModal == old(showCreateModal)
    {
      user := HeaderFor(sessionUser);
      page := 1;
      FetchBlogs(1, outcome);
    }

    /** `handleLoginSuccess`: the login dialog closes; when the follow-up
        `getUser` returns a user, the header shows it, the page goes back to
        1 and page 1 is fetched; otherwise nothing else happens. */
    method HandleLoginSuccess(reply: AuthReply, outcome: Outcome)
      modifies this
      ensures !showLoginModal
      ensures reply.user.None? ==> user == old(user) && page == old(page) && requests == old(requests)
      ensures reply.user.None? ==> blogs == old(blogs) && loading == old(loading) && error == old(error)
      ensures reply.user.None? ==> totalCount == old(totalCount) && refreshKey == old(refreshKey)
      ensures reply.user.None? ==> isPageChanging == old(isPageChanging)
      ensures reply.user.Some? ==> user == HeaderFor(reply.user) && page == 1 && Valid()
      ensures reply.user.Some? ==> requests == old(requests) + [PageRange(1)]
      ensures reply.user.Some? ==> !loading && !isPageChanging
      ensures reply.user.Some? && outcome.Ok? ==> blogs == outcome.rows && error == None
      ensures reply.user.Some? && outcome.Ok? ==>
                totalCount == GetOr(outcome.count, 0) && refreshKey == old(refreshKey) + 1
      ensures reply.user.Some? && outcome.Err? ==> blogs == [] && error == Some(outcome.message)
      ensures reply.user.Some? && outcome.Err? ==> totalCount == 0 && refreshKey == old(refreshKey)
      ensures showCreateModal == old(showCreateModal)
    {
      showLoginModal := false;
      if reply.user.Some? {
        user := HeaderFor(reply.user);
        page := 1;
        FetchBlogs(1, outcome);
      }
    }

    /** `onBlogCreated`: the create dialog closes, the page goes back to 1
        and page 1 is fetched. */
    method OnBlogCreated(outcome: Outcome)
      modifies this
      ensures Valid() && page == 1 && !showCreateModal
      ensures requests == old(requests) + [PageRange(1)]
      ensures outcome.Ok? ==> blogs == outcome.rows && error == None
      ensures outcome.Ok? ==> totalCount == GetOr(outcome.count, 0) && refreshKey == old(refreshKey) + 1
      ensures outcome.Err? ==> blogs == [] && error == Some(outcome.message)
      ensures outcome.Err? ==> totalCount == 0 && refreshKey == old(refreshKey)
      ensures !loading && !isPageChanging && user == old(user)
      ensures showLoginModal == old(showLoginModal)
    {
      showCreateModal := false;
      page := 1;
      FetchBlogs(1, outcome);
    }
  }
}
