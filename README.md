# Blog front end: the decision logic under the screens

This project models the sequential decision logic of a small blog web
application whose storage and authentication live in a hosted backend. The
backend is not modelled. Every reply it gives (a page of rows, a user
lookup, a sign-up, an insert) is an input to the operation that awaits it.
What is modelled and proved:

- **The listing page** (`src/ui/src/app/page.tsx`), as the class
  `Listing.HomePage`. Its fields are the page's state variables. Each fetch
  is a start step (`BeginFetch`) followed by a completion step
  (`CompleteFetch`). There are methods for a page change, Previous and Next,
  the auth-state listener, a login success and a blog creation. The pure
  arithmetic is in `Pagination`: the row range requested for a page, the page
  count, and where Previous and Next lead.
- **The post card** (`src/ui/src/components/BlogCard.tsx`), as the class
  `BlogCard.BlogCardView`. It covers the author lookup and its fallbacks, the
  ownership flag computed from the looked-up email, the Edit and Delete
  buttons, and the 150-character preview.
- **The four forms.** These are the login/register dialog, the create
  dialog, the create page and the register page (`AuthModal`,
  `CreateBlogModal`, `CreatePage`, `RegisterPage`). Each submission handler is
  a method over the form's state record. It applies the source's updates in
  the source's order, with the same early returns. It returns the new record
  and the trace of effects it issued, in order: backend calls, writes of the
  cached `userEmail`, the parent's callbacks, and navigation. Because of that
  trace, "a validation failure issues no call" can be stated as
  `effects == []`.
- **The auth slice** (`src/ui/src/store/authSlice.ts`), as the class
  `AuthSlice.AuthState`: one optional user string, `setUser` and `logout`.
- **`trim()`.** The emptiness test `!s.trim()` is the predicate `Text.Blank`
  (every character is ECMAScript whitespace). `Text.Trim` models
  `String.prototype.trim` itself, and the two are tied by
  `Text.TrimEmptyIffBlank`.

JavaScript truthiness is written out. `!userId` and `!blog.author_email` are
true for an absent value and also for the empty string (`Common.Falsy`).
`x ?? d` falls back only on an absent value (`Common.GetOr`).

Three details of the code that the model keeps:

- Ownership is compared against the email the card's own `users` lookup
  returns (`BlogCard.tsx:50`). The post's stored `author_email` is not
  compared.
- The refresh key increases on every successful fetch (`page.tsx:58`),
  whether or not a post was just created.
- The error is cleared when a fetch starts (`page.tsx:36`). A success does
  not clear it again.

The code also shows three things of note:

- The listing renders cards without `currentUserEmail`, `onEdit` or
  `onDelete` (`page.tsx:186`). By `BlogCardView.Controls`, such a card never
  shows Edit or Delete.
- The create page inserts a row with an `author` field and no
  `author_email` (`create/page.tsx:70`). A card for such a row therefore
  takes the "Unknown author" branch of `FetchAuthor`, and nobody owns it.
- The create dialog's X, Cancel and submit are disabled while saving. Its
  backdrop still closes it (`CreateBlogModal.tsx:88`).

## Model

| member | source | states |
|---|---|---|
| `Text.TrimStart` | src/ui/src/components/AuthModal.tsx:28 | leading part of `trim`: the result is a suffix of the input, everything dropped is whitespace, and the result does not start with whitespace |
| `Text.TrimEnd` | src/ui/src/components/AuthModal.tsx:28 | trailing part of `trim`: the result is a prefix, everything dropped is whitespace, and the result does not end with whitespace |
| `Text.Trim` | src/ui/src/components/AuthModal.tsx:28 | `trim` keeps the stretch of the input left after cutting the leading and trailing whitespace; everything cut is whitespace, and the result has no whitespace at either end |
| `Text.TrimEmptyIffBlank` | src/ui/src/components/AuthModal.tsx:28 | `s.trim()` is empty exactly when every character of `s` is whitespace, so `Blank` is the forms' `!s.trim()` test |
| `Text.TrimIdempotent` | src/ui/src/app/create/page.tsx:48 | trimming a trimmed string again changes nothing |
| `Pagination.PageRange` | src/ui/src/app/page.tsx:38-39 | the requested range holds exactly PAGE_SIZE (5) rows and starts at offset 0 or later for pages numbered from 1 (offset 0 for page 1) |
| `Pagination.RangesAdjacent` | src/ui/src/app/page.tsx:38-39 | page p + 1's range starts right after page p's range ends |
| `Pagination.PageOfRow` | src/ui/src/app/page.tsx:38-39 | every row offset lies in the range of some page numbered 1 or more |
| `Pagination.RowOnOnePage` | src/ui/src/app/page.tsx:38-39 | a row offset lies in the range of one page only: the ranges of different pages are disjoint |
| `Pagination.TotalPages` | src/ui/src/app/page.tsx:117 | there is at least one page; the pages hold every row; with rows present the last page is not empty; 0 rows give 1 page |
| `Pagination.PreviousDisabled` | src/ui/src/app/page.tsx:192 | on a page numbered from 1, Previous is disabled exactly on page 1 |
| `Pagination.NextDisabled` | src/ui/src/app/page.tsx:202 | on a page no later than the last, Next is disabled exactly on the last page |
| `Pagination.PreviousTarget` | src/ui/src/app/page.tsx:192-193 | Previous never leads below page 1 or past the current page, and goes back exactly one page whenever it is enabled |
| `Pagination.NextTarget` | src/ui/src/app/page.tsx:202-203 | Next never leads past the last page or before an in-range current page, and goes on exactly one page whenever it is enabled |
| `Pagination.NavigationStaysInRange` | src/ui/src/app/page.tsx:192-203 | from a page between 1 and totalPages, both Previous and Next lead to a page between 1 and totalPages |
| `Pagination.RowsOnPage` | src/ui/src/app/page.tsx:38-49 | against a table of n rows, a page's range selects at most 5 rows; every page before the last is full, the last holds the remainder, and later pages are empty |
| `Pagination.RowsOnPagesPrefix` | src/ui/src/app/page.tsx:38-49 | pages 1 to m together select the first m * 5 rows, or the whole table when it is smaller |
| `Pagination.PagesCoverAllRows` | src/ui/src/app/page.tsx:38-49 | pages 1 to totalPages together select exactly the n rows of the table |
| `Pagination.Scenarios` | src/ui/src/app/page.tsx:117 | an empty table has one page with no rows; 12 rows give 3 pages of 5, 5 and 2 rows |
| `Listing.HeaderFor` | src/ui/src/app/page.tsx:84-91 | the header shows a user exactly when the backend returned one, with that user's email or none |
| `Listing.HomePage.constructor` | src/ui/src/app/page.tsx:14-30 | the page starts on page 1, loading, with no blogs, a count of 0, no error, no user and a refresh key of 0 |
| `Listing.HomePage.PageCount` | src/ui/src/app/page.tsx:117 | the "of n" page count shown is at least 1 |
| `Listing.HomePage.ShowsLoadingText` | src/ui/src/app/page.tsx:179 | "Loading blogs..." shows only while loading and never during a page change |
| `Listing.HomePage.ShowsNoBlogs` | src/ui/src/app/page.tsx:181 | "No blogs found." shows only with an empty list, no error message on screen (none, or an empty one) and not loading |
| `Listing.HomePage.BeginFetch` | src/ui/src/app/page.tsx:34-39 | a fetch raises `loading` (and shows "Loading blogs...") only when no page change is in progress; it clears the error, requests the page's range and changes nothing else |
| `Listing.HomePage.CompleteFetch` | src/ui/src/app/page.tsx:51-62 | failure: the error is the message, blogs are empty, the count is 0, the refresh key is unchanged, and "No blogs found." is not shown unless the message is empty; success: blogs are the rows, the count is `count ?? 0` and the refresh key goes up by exactly 1; either way `loading` and `isPageChanging` end false |
| `Listing.HomePage.FetchBlogs` | src/ui/src/app/page.tsx:32-63 | one range is requested; a success leaves no error, and "No blogs found." shows exactly when the fetch succeeded with no rows or failed with an empty message (which `!error` treats as no error) |
| `Listing.HomePage.OnPageChange` | src/ui/src/app/page.tsx:67-72 | the current page changes nothing at all; another page becomes the page and raises `isPageChanging`; no other state changes; a page numbered from 1 keeps the state valid |
| `Listing.HomePage.ClickPrevious` | src/ui/src/app/page.tsx:191-197 | an enabled Previous moves exactly one page back, marks a page change and keeps the page at 1 or more; the list, loading flag, count, error, refresh key, header user, both dialogs and the requests are unchanged |
| `Listing.HomePage.ClickNext` | src/ui/src/app/page.tsx:201-207 | an enabled Next moves exactly one page on, never past totalPages, and marks a page change; the list, loading flag, count, error, refresh key, header user, both dialogs and the requests are unchanged |
| `Listing.HomePage.FetchUser` | src/ui/src/app/page.tsx:79-92 | each time the effect runs (on mount and whenever `fetchBlogs` changes) the header user follows the backend's current user; nothing else changes |
| `Listing.HomePage.OnAuthStateChange` | src/ui/src/app/page.tsx:96-109 | any auth change updates the header, resets to page 1 and fetches page 1's range; a success sets the rows, clears the error, takes `count ?? 0` and bumps the refresh key; a failure shows the message with no rows, a count of 0 and the key unchanged; loading and page change end false; both dialogs are unchanged |
| `Listing.HomePage.HandleLoginSuccess` | src/ui/src/app/page.tsx:123-135 | the login dialog closes and the create dialog is unchanged; when `getUser` returns a user the header shows it, the page resets to 1 and page 1 is fetched with its outcome applied (rows, error, count, refresh key) and loading and page change end false; when it returns none nothing else changes |
| `Listing.HomePage.OnBlogCreated` | src/ui/src/app/page.tsx:221-225 | the create dialog closes, the page resets to 1 and page 1 is fetched with its outcome applied (rows, error, count, refresh key); loading and page change end false; the header user and the login dialog are unchanged |
| `BlogCard.Preview` | src/ui/src/components/BlogCard.tsx:56 | the preview is the first 150 characters of the content, or all of a shorter content, followed by "..." in either case |
| `BlogCard.Owns` | src/ui/src/components/BlogCard.tsx:50 | the viewer owns a card exactly when a viewer email is given, an author email is known, and the two are equal |
| `BlogCard.BlogCardView.constructor` | src/ui/src/components/BlogCard.tsx:20-21 | before resolution the name is "Loading...", no author email is known, no lookup has been made, and the card is not owned and shows no buttons |
| `BlogCard.BlogCardView.IsOwner` | src/ui/src/components/BlogCard.tsx:50 | an owned card has a known author email and it is the viewer's |
| `BlogCard.BlogCardView.Controls` | src/ui/src/components/BlogCard.tsx:62-81 | Edit (Delete) is shown exactly when the viewer owns the card and `onEdit` (`onDelete`) was supplied, and a shown button passes the post's id |
| `BlogCard.BlogCardView.FetchAuthor` | src/ui/src/components/BlogCard.tsx:24-50 | empty or absent author email: "Unknown author", no email and no lookup; failed or empty lookup: "Unknown author" and no email; found row: its full name and its email; afterwards the card is owned iff the row found has the viewer's non-null email |
| `AuthModal.HandleSubmit` | src/ui/src/components/AuthModal.tsx:24-96 | blank email/password, then (register mode) blank full name, then password mismatch, each give their message with no call; a refused sign-up stops with its message or "Registration failed"; a failed profile insert stops with "User profile creation failed"; after sign-in `loading` is false, and a failure gives its message or "Failed to authenticate"; success stores the email, then calls `onLoginSuccess(user.id)`, then `onClose`; only `loading` and `error` change |
| `AuthModal.ToggleMode` | src/ui/src/components/AuthModal.tsx:216-219 | the mode flips and the error is cleared; nothing else changes |
| `CreateBlogModal.ShowsLoginPrompt` | src/ui/src/components/CreateBlogModal.tsx:107 | the login prompt appears only once the auth check has finished and only when it found nobody |
| `CreateBlogModal.Render` | src/ui/src/components/CreateBlogModal.tsx:97-174 | the login prompt replaces the form iff `unauthenticated && authChecked`; the X, Cancel and submit are disabled exactly while loading, and Cancel and submit are absent under the prompt |
| `CreateBlogModal.CheckAuth` | src/ui/src/components/CreateBlogModal.tsx:25-42 | a failed check or one with no user marks the viewer unauthenticated and checked (so the prompt shows and the dialog stays open); a user found is stored with its email or null, marked authenticated and checked |
| `CreateBlogModal.HandleSubmit` | src/ui/src/components/CreateBlogModal.tsx:47-83 | blank title or content, then a missing user id or email, are refused with their messages and no insert; the inserted row carries exactly the title, content, user id and user email; a failure keeps the fields with the message; success clears them, then calls `onBlogCreated`, then `onClose`; `loading` ends false |
| `CreateBlogModal.NoInsertWithoutUser` | src/ui/src/components/CreateBlogModal.tsx:56-59 | from any form state without a user id or email (so before the auth check has found a user, whatever earlier submissions left), no submission can reach the insert |
| `CreatePage.ShowsForm` | src/ui/src/app/create/page.tsx:36-42 | the form is never rendered while the auth check runs, so not as the page mounts |
| `CreatePage.CheckAuth` | src/ui/src/app/create/page.tsx:19-31 | with no user the page redirects to "/login" and keeps `checkingAuth`, so the form never renders; with a user the form renders |
| `CreatePage.AuthorOf` | src/ui/src/app/create/page.tsx:66 | the author is the user's email, or "anonymous" when there is no user or no email |
| `CreatePage.HandleSubmit` | src/ui/src/app/create/page.tsx:44-80 | blank fields are refused before any call; a `getUser` error stops before the insert with its message; an insert error stays on the page with its message; only success navigates to "/"; `loading` ends false after any call |
| `RegisterPage.HandleSubmit` | src/ui/src/app/register/page.tsx:16-54 | blank email or password is refused before sign-up; a sign-up error stops before sign-in with its message; after sign-in `loading` is false and an error shows; navigation to "/" happens iff both calls succeed |
| `AuthSlice.AuthState.constructor` | src/ui/src/store/authSlice.ts:7-9 | the initial state has no user |
| `AuthSlice.AuthState.SetUser` | src/ui/src/store/authSlice.ts:15-17 | the user becomes the payload, null included |
| `AuthSlice.AuthState.Logout` | src/ui/src/store/authSlice.ts:18-20 | from any state the user becomes null |

## Left out

- The hosted backend: its auth calls, selects, inserts and auth-change notifications. Each reply is an input. Ordering by `created_at`, and a page holding at most the rows its range names, are the backend's behaviour. `Pagination.RowsOnPage` states what an exact backend returns for a range; it does not model the backend.
- Overlapping fetches and a stale response overwriting a newer one. This is concurrency. Each fetch is a start step followed by one completion step.
- Effect scheduling. The effects re-run when `page` or `fetchBlogs` changes, and `fetchBlogs` changes with `isPageChanging`. The model exposes the triggers as methods and does not decide when React calls them. Listener subscription and unsubscription are left out for the same reason.
- `fetchBlogs` reads `isPageChanging` as captured at its last render. The model reads the current field.
- The visibility of the logout dialog, the header's avatar and the logout dialog itself. These are plain toggles and a sign-out wrapper.
- The route and layout wiring, the not-found page and the edit page. These are outside the modelled core.
- `localStorage` is recorded only as `StoreEmail` effects. `router.push` is recorded only as `Navigate` effects with the target path.
- `Math.ceil` of a float quotient is the integer ceiling `(n + 4) / 5`. The two agree for non-negative counts.
- The date shown on a card (`toLocaleDateString`): locale formatting.
- The HTML `required` and `minLength={6}` attributes. The browser enforces them, not the handlers.
- Field edits (`onChange` handlers) and the show-password checkbox. Each is a single record update with no decision in it.
- The re-render forced by `key={refreshKey}`. Only the counter is modelled.
- BlogCard.Preview: counts Unicode code points, while `slice` counts UTF-16 units. The two differ for content with characters outside the Basic Multilingual Plane.
- BlogCard.BlogCardView.FetchAuthor: a users row whose `full_name` is null at run time is not modelled, because the name is a plain string.
- Common.Blog: `author_email` is optional even though the declared type makes it a string. The card tests for its absence, and the create page writes rows without it.
- RegisterPage.HandleSubmit: takes only the error of each reply, because the page reads nothing else from them.
