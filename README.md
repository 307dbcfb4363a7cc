# RustyPosts: pagination, client-side rules and account tables, in Dafny

RustyPosts is a small blogging web application. Its front end is written in
TypeScript with React. Its back end is written in Rust, with Diesel over a
SQL database. This project models three parts of it and proves what they
promise:

- **The posts paginator** on a user's profile (`paginator.dfy`). It covers:
  - the page count for seven posts per page;
  - the current page;
  - the "Showing X to Y of N" range and the Previous/Next buttons;
  - the bar of page buttons and "..." markers that `PostsPaginatorBar`
    builds with `push` loops and `splice` calls.

  The method `PageButtons` keeps that loop-and-splice form and is proved
  equal to the function `Bar`. `Bar` is proved equal to an independent
  description, `Render(Shown(...))`: which pages are shown, drawn with a
  "..." wherever pages are skipped. From that description the ordering,
  single-highlight, length and spacing properties follow.
- **Client-side rules**:
  - the document title chosen from the path, and the avatar-link and
    stock-photo state of the main layout (`main_layout.dfy`);
  - the post form's validation, the form data it submits, and the dialog's
    reaction to an action result (`create_post_dialog.dfy`);
  - the user page's `?page=` parsing, loader, action dispatch, avatar
    visibility, the post opener, and the state of each post
    (`user_page.dfy`).

  JavaScript's `String(n)` and `parseInt(s, 10)` are modelled in `js.dfy`.
  `FormData` and requests are modelled in `web.dfy`.
- **Account and session tables** on the back end:
  - the database holds `users` keyed by username and `sessions` keyed by
    session id (`tables.dfy`);
  - the user repository covers the username rule, create, lookup and
    update (`user_repository.dfy`);
  - the session repository covers one session per user, logout and the
    session's user (`session_repository.dfy`);
  - the login, logout and sign-up service is in `user_service.dfy`.

  Each repository and the service is a class over one shared `Database`
  object. Each statement's effect on the tables is also given as a pure
  function. The methods are proved to match those functions, and the
  lemmas are stated about the functions.

Things outside the model are passed in as parameters:
- the back end's answers, as functions from request to response;
- bcrypt, as the functions `verify` and `hash`;
- the UUID of a new session, as `freshId`;
- `Date.now()`, as `now`;
- element heights, as plain integers.

## Model

| member | source | states |
|---|---|---|
| Paginator.TotalPages | frontend/src/components/Paginator.tsx:44 | the page count is the ceiling of posts / 7: (pages-1)*7 < posts <= pages*7, 0 pages for no posts, at least 1 otherwise |
| Paginator.CurrentPageAsWritten | frontend/src/components/Paginator.tsx:50 | as written, the current page never exceeds the page count and is the requested page whenever that is not too large (it is never raised to 1) |
| Paginator.CurrentPage | frontend/src/components/Paginator.tsx:50 | the intended current page: at least 1, at most the page count when there are pages, the request itself when it names a page, the last page when the request is too large |
| Paginator.ShowingRange | frontend/src/components/Paginator.tsx:64-65 | on an existing page the range starts at (page-1)*7+1 and ends at min(page*7, posts); 1 <= start <= end <= posts and at most 7 posts |
| Paginator.ShowingRangeForAnyRequest | frontend/src/components/Paginator.tsx:64-65 | with the intended current page every request yields 0 <= start <= end <= posts, at most 7 posts, and start >= 1 when there are posts |
| Paginator.HandleNext | frontend/src/components/Paginator.tsx:67-72 | Next does nothing exactly when current >= page count, and otherwise asks for current + 1 |
| Paginator.HandlePrev | frontend/src/components/Paginator.tsx:68-75 | Previous does nothing exactly when current == 1, and otherwise asks for current - 1 |
| Paginator.NavigationMovesByOne | frontend/src/components/Paginator.tsx:67-75 | after Next or Previous the (intended) current page moves by exactly one when the button is enabled and stays put when disabled, for every feed and request |
| Paginator.NavigationMovesByOneAsWritten | frontend/src/components/Paginator.tsx:67-75 | the same for the current page as written, whenever that page is at least 1 |
| Paginator.EmptyFeedAsWritten | frontend/src/components/Paginator.tsx:50-68 | as written, a user with no posts gets current page 0, the line "Showing -6 to 0", and an enabled Previous that asks for page -1 |
| Paginator.EmptyFeed | frontend/src/components/Paginator.tsx:50-68 | with the intended current page a user with no posts gets "0 to 0" and both buttons disabled, whatever was requested |
| Paginator.PageButtons | frontend/src/components/Paginator.tsx:82-123 | the push loops and splices build exactly `Bar(totalPages, currentPage)`, for every total and current page |
| Paginator.BarIsRenderedShown | frontend/src/components/Paginator.tsx:82-123 | for every input the bar is the shown pages (all pages up to 9; else 1-3, the current page with a lone neighbour, the last three) drawn with a "..." exactly where pages are skipped |
| Paginator.SmallBar | frontend/src/components/Paginator.tsx:82-86 | with at most 9 pages the bar is pages 1..totalPages in order, with no "...", and only the current one highlighted |
| Paginator.BarAnchors | frontend/src/components/Paginator.tsx:88-100 | with more than 9 pages the bar begins with 1, 2, 3, ends with the last three pages, and has 7 to 9 items |
| Paginator.BarAtEdges | frontend/src/components/Paginator.tsx:102-103 | with more than 9 pages and the current page among the first or last three, the bar is exactly 1, 2, 3, "...", tp-2, tp-1, tp |
| Paginator.BarOrderedAndSpaced | frontend/src/components/Paginator.tsx:104-121 | with more than 9 pages and an existing current page, the pages strictly increase and lie in 1..totalPages; adjacent buttons are consecutive pages; every "..." sits between two buttons and hides at least two pages |
| Paginator.BarSingleActive | frontend/src/components/Paginator.tsx:104-121 | with more than 9 pages and an existing current page, exactly one button is highlighted, and it shows the current page |
| Paginator.BarOutOfRangeAsWritten | frontend/src/components/Paginator.tsx:50 | as written, `?page=0` on a ten-page feed puts a highlighted "0" after page 3, so the pages are out of order |
| Paginator.BarForAnyRequest | frontend/src/components/Paginator.tsx:50 | with the intended current page, every request on a feed of more than 9 pages yields an ordered, well-spaced bar that highlights the current page only |
| Js.IntToString | frontend/src/components/Paginator.tsx:71 | `String(n)` is non-empty and starts with "-" or a digit; `parseInt` reads it back (see below) |
| Js.ParseInt | frontend/src/pages/UserPage.tsx:23 | `parseInt(s, 10)` is NaN exactly when no digit follows the leading white space and optional sign |
| Js.ParseIntOfIntToString | frontend/src/pages/UserPage.tsx:23-26 | `parseInt` reads back any number written by `String`, even when other text that does not start with a digit follows |
| Web.FirstValue | frontend/src/pages/UserPage.tsx:43 | `get(name)` is null exactly when no entry has that name; otherwise it is the value of the first entry with that name |
| Web.FormData.Append | frontend/src/components/CreatePostDialog.tsx:47-51 | `append` adds the entry at the end and keeps every earlier entry |
| MainLayout.Title | frontend/src/pages/MainLayout.tsx:49-67 | every title ends with "RustyPosts"; it is the bare "RustyPosts" exactly when the path is not "/login", not "/signup" and not a profile path |
| MainLayout.TitleExamples | frontend/src/pages/MainLayout.tsx:51-57 | "/login" gives "Login" and "/signup" gives "Create an account", each followed by the site name |
| MainLayout.TitleOfProfile | frontend/src/pages/MainLayout.tsx:59-63 | "/users/<name>", with a name that is non-empty and has no '/', gives "<name>'s Profile" followed by the site name |
| MainLayout.ProfileTitleInjective | frontend/src/pages/MainLayout.tsx:59-63 | two profile paths with the same title are the same path |
| MainLayout.UntitledExamples | frontend/src/pages/MainLayout.tsx:59-66 | "/users/", "/users/a/b" and "/login/" all get "RustyPosts" |
| MainLayout.AvatarLink | frontend/src/pages/MainLayout.tsx:15-19 | the profile-picture link is null exactly when nobody is logged in; otherwise it is the user's `/api/users/<name>/avatar?v=` followed by a decimal timestamp |
| MainLayout.AvatarLinkTimestamp | frontend/src/pages/MainLayout.tsx:16-18 | the digits after `?v=` read back as the time the link was made |
| MainLayout.AvatarLinkCacheBusting | frontend/src/pages/MainLayout.tsx:32-35 | links made at different times differ |
| MainLayout.Layout.constructor | frontend/src/pages/MainLayout.tsx:21-22 | the layout starts with no link and no stock photo |
| MainLayout.Layout.OnLoaderData | frontend/src/pages/MainLayout.tsx:15-19 | new loader data sets the link for the new user, keeps the stock-photo flag, and keeps the invariant that a link is always the logged-in user's avatar |
| MainLayout.Layout.UpdateProfilePictureLink | frontend/src/pages/MainLayout.tsx:32-37 | refreshing the link keeps the user, makes a fresh link for now, and always resets the stock-photo flag to false |
| MainLayout.Layout.SetStockPhoto | frontend/src/pages/MainLayout.tsx:39-45 | the stock-photo getter returns the last value set; the user and the link are unchanged |
| CreatePostDialog.FirstFile | frontend/src/components/CreatePostDialog.tsx:45 | `image?.[0]` is present exactly when a non-empty list was chosen, and it is its first file |
| CreatePostDialog.Validate | frontend/src/components/CreatePostDialog.tsx:25-37 | title and body errors occur exactly when the field is empty; the image error occurs exactly when the size or type test fails; it is "Image is too large" exactly when the size test fails |
| CreatePostDialog.AcceptedForms | frontend/src/components/CreatePostDialog.tsx:25-37 | a form passes exactly when title and body are non-empty and there is no file, or the file is under 5*1024*1024 bytes and has type "image/png", whatever the messages say |
| CreatePostDialog.MissingImagePasses | frontend/src/components/CreatePostDialog.tsx:29-36 | a missing image or an empty file list passes both image tests |
| CreatePostDialog.PostFormEntries | frontend/src/components/CreatePostDialog.tsx:44-51 | submitted data always carries title, body and type "post"; it carries an image, the first file, exactly when one was chosen; it has 3 or 4 entries |
| CreatePostDialog.OnSubmit | frontend/src/components/CreatePostDialog.tsx:44-51 | the successive `append`s build a new FormData whose entries are `PostFormEntries(form)` |
| CreatePostDialog.SubmitButtonFor | frontend/src/components/CreatePostDialog.tsx:71 | the submit button is disabled and reads "Publishing..." exactly while the navigation state is submitting |
| CreatePostDialog.Dialog.constructor | frontend/src/components/CreatePostDialog.tsx:18 | the dialog starts closed, with an empty form and no toasts |
| CreatePostDialog.Dialog.HandleClick | frontend/src/components/CreatePostDialog.tsx:19 | clicking the opener opens the modal and changes nothing else |
| CreatePostDialog.Dialog.RequestClose | frontend/src/components/CreatePostDialog.tsx:80 | a close request closes the modal and keeps the form |
| CreatePostDialog.Dialog.Edit | frontend/src/components/CreatePostDialog.tsx:90-104 | typing changes the form only |
| CreatePostDialog.Dialog.OnActionData | frontend/src/components/CreatePostDialog.tsx:59-69 | a missing or non-post result changes nothing; a post result closes the modal and resets the form, then toasts "Post published" on success or "An error occurred" on failure |
| UserActions.ActionRequest | frontend/src/pages/UserPage.tsx:43-63 | the form goes unchanged to "/api/posts/create" exactly when its type is "post", and to "/api/users/<name>" otherwise |
| UserActions.Action | frontend/src/pages/UserPage.tsx:40-67 | the result's kind is post exactly when the type is "post"; success mirrors the response; an error text is present exactly on failure ("TODO: Comprehensive error here." for posts, "TODO" for avatars) |
| UserPage.PageParam | frontend/src/pages/UserPage.tsx:23-25 | a missing `page` gives 1; one with no leading integer gives 1; otherwise it is its leading integer |
| UserPage.PageParamLeadingInteger | frontend/src/pages/UserPage.tsx:23-25 | any number written out, with any text after it that does not start with a digit, is read as that number |
| UserPage.PageParamFallback | frontend/src/pages/UserPage.tsx:23-25 | an empty parameter, or one starting with anything but white space, a sign or a digit, falls back to page 1 |
| UserPage.Loader | frontend/src/pages/UserPage.tsx:21-32 | the loader fails with 404 "User not found" exactly when the response is not ok; otherwise it returns the response's user and the parsed page |
| UserPage.LoaderForwardsPage | frontend/src/pages/UserPage.tsx:23-26 | the number after `?page=` in the loader's request reads back as the page the loader chose |
| UserPage.ViewerAvatarAsWritten | frontend/src/pages/UserPage.tsx:84 | as written, the read-only avatar renders exactly when someone other than the owner is logged in, and never together with the editable one |
| UserPage.LoggedOutSeesNoAvatarAsWritten | frontend/src/pages/UserPage.tsx:83-84 | as written, a logged-out visitor sees neither avatar |
| UserPage.ExactlyOneAvatar | frontend/src/pages/UserPage.tsx:83-84 | with the intended condition every visitor sees exactly one avatar, and logged-in visitors see what the code shows |
| UserPage.SubmittedPostReachesPostEndpoint | frontend/src/pages/UserPage.tsx:43-57 | the form data either dialog submits goes to the post-creation endpoint, and its result is a post result |
| UserPage.Opener.constructor | frontend/src/pages/UserPage.tsx:152 | the opener starts closed, with an empty form and no toasts |
| UserPage.Opener.HandleClick | frontend/src/pages/UserPage.tsx:153 | clicking opens the modal and changes nothing else |
| UserPage.Opener.Edit | frontend/src/pages/UserPage.tsx:216-231 | typing changes the form only |
| UserPage.Opener.OnActionData | frontend/src/pages/UserPage.tsx:192-198 | only a successful post result closes the modal, toasts "Post published" and resets the form; any other result leaves all three unchanged |
| UserPage.Page.constructor | frontend/src/pages/UserPage.tsx:72 | the page starts with the loader's posts |
| UserPage.Page.UpdatePosts | frontend/src/pages/UserPage.tsx:74-76 | the posts are replaced by the given list |
| UserPage.PostImageUrlNamesPost | frontend/src/pages/UserPage.tsx:124 | a post's image address starts with `/api/posts/` and the number after it reads back as the post's id |
| UserPage.ProfilePost.constructor | frontend/src/pages/UserPage.tsx:98-100 | a post starts collapsed, with its image and no clipping |
| UserPage.ProfilePost.OnImageError | frontend/src/pages/UserPage.tsx:123-128 | after an image error the image is no longer shown |
| UserPage.ProfilePost.ReadMore | frontend/src/pages/UserPage.tsx:131-137 | "Read more..." expands the post and is not offered again |
| UserPage.ProfilePost.Measure | frontend/src/pages/UserPage.tsx:103-109 | the post is clipped exactly when its content is taller than its box; "Read more..." is then offered exactly when it is collapsed |
| Tables.LookupUser | src/repository/user.rs:44-51 | a lookup by primary key finds a row exactly when one is stored under that name, and it is that row |
| Tables.LookupUserKeyed | src/schema.rs:21-22 | in a table keyed by username, the row found under a name has that username |
| Tables.Database.constructor | src/schema.rs:14-31 | a new database has empty tables and satisfies the key invariants and the foreign key from sessions to users |
| UserRepository.AllUsernameChars | src/repository/user.rs:22-24 | `chars().all(...)` holds exactly when every character is an ASCII letter, an ASCII digit or '_' |
| UserRepository.IsCorrectUsername | src/repository/user.rs:20-25 | a username is correct exactly when it is non-empty and every character is allowed; a correct name is pure ASCII |
| UserRepository.UsernameExamples | src/repository/user.rs:20-25 | "" is rejected, "alice_01" is accepted, and names with a space, an accented letter or a '-' are rejected |
| UserRepository.InsertUser | src/schema.rs:21-22 | an insert fails with a unique violation exactly when the username is already present, and otherwise adds that row |
| UserRepository.CreateNewUserSpec | src/repository/user.rs:27-38 | an invalid name gives SignUpError("Username is invalid"); creation succeeds exactly for a valid name not yet taken; a taken valid name is a unique violation |
| UserRepository.CreatedUserIsFound | src/repository/user.rs:35-36 | after creation the new user is found exactly as given, every other name looks up as before, and rows stay keyed by username |
| UserRepository.ApplyUpdate | src/repository/user.rs:60-64 | a password or avatar given in the change replaces the stored one, one not given is kept, and the username (the primary key, never in the `SET` list) is kept |
| UserRepository.UpdateUserSpec | src/repository/user.rs:57-69 | an update fails with an empty changeset exactly when it gives neither a password nor an avatar, whatever its username; otherwise no row is added or removed, only the row named by the change can differ, and that row gets the change |
| UserRepository.UpdateKeepsKeys | src/repository/user.rs:61-64 | after an update every row is still stored under its own username, since the change never sets the username |
| UserRepository.UpdateIdempotent | src/repository/user.rs:60-64 | running an update twice leaves the table as running it once |
| UserRepository.Repository.constructor | src/repository/user.rs:16-18 | the repository works on the given database |
| UserRepository.Repository.CreateNewUser | src/repository/user.rs:27-38 | the users table becomes `CreateNewUserSpec`'s table, or stays unchanged with its error |
| UserRepository.Repository.GetUserByUsername | src/repository/user.rs:40-55 | the result is the lookup of the name in the users table |
| UserRepository.Repository.UpdateUser | src/repository/user.rs:57-69 | the users table becomes `UpdateUserSpec`'s table, or stays unchanged with its error |
| SessionRepository.WithoutUser | src/repository/session.rs:24 | deleting by username removes exactly that user's sessions and keeps every other row as it was |
| SessionRepository.AddSessionSpec | src/repository/session.rs:20-33 | the insert fails exactly when the id belongs to another user (a unique violation) or, failing that, when the user has no `users` row (a foreign-key violation), and the deletion stays; on success the id maps to the user; either way the user has no other session |
| SessionRepository.AddSessionKeepsOthers | src/repository/session.rs:24-28 | other users' sessions are untouched, and every row afterwards is the new one or an earlier row of another user |
| SessionRepository.AddSessionOneSessionPerUser | src/repository/session.rs:24-28 | starting a session keeps every user at one session at most |
| SessionRepository.AddSessionKeepsOwners | src/schema.rs:31 | starting a session, whatever its outcome, leaves every session naming an existing user |
| SessionRepository.DeleteSessionSpec | src/repository/session.rs:39-40 | ending a session removes exactly that id and keeps every other row |
| SessionRepository.DeleteSessionIdempotent | src/repository/session.rs:39-40 | ending an absent session is a no-op; ending one twice equals ending it once; one session per user is kept |
| SessionRepository.UserBySessionSpec | src/repository/session.rs:46-63 | an unknown id is an error, not `Ok(None)`; `Ok(None)` occurs exactly when the session exists but its user does not |
| SessionRepository.UserBySessionIsOwner | src/repository/session.rs:54-62 | a user found for a session is the stored row of the user the session names |
| SessionRepository.UserBySessionOwned | src/repository/session.rs:54-58 | while every session names an existing user, a known session id always yields that user, never `Ok(None)` |
| SessionRepository.Repository.constructor | src/repository/session.rs:16-18 | the repository works on the given database |
| SessionRepository.Repository.AddSession | src/repository/session.rs:20-33 | the delete and then the insert give `AddSessionSpec`'s table and result over the current users; users are unchanged and the key and foreign-key invariants are kept |
| SessionRepository.Repository.DeleteSession | src/repository/session.rs:35-44 | the sessions table becomes `DeleteSessionSpec`'s table and the result is Ok |
| SessionRepository.Repository.GetUserBySession | src/repository/session.rs:46-63 | the result is `UserBySessionSpec` of the current tables |
| UserService.LoginSpec | src/service/user.rs:26-54 | login succeeds exactly for a stored user whose password bcrypt verifies, when the new id is not another user's session; it then returns the new id |
| UserService.LoginUnknownUser | src/service/user.rs:51-52 | an unknown username is a LoginError and changes no session |
| UserService.LoginBadPassword | src/service/user.rs:33-49 | a rejected password is a LoginError, one bcrypt cannot check is InternalError("Invalid password"), and neither changes a session |
| UserService.LoginStartsOnlySession | src/service/user.rs:37-45 | after a successful login the new id belongs to the user, is that user's only session, and other users' sessions are unchanged |
| UserService.LoginKeepsOneSessionPerUser | src/service/user.rs:43 | login, whatever its outcome, keeps every user at one session at most |
| UserService.CreateUserSpec | src/service/user.rs:65-74 | a hash failure is an error; otherwise the user is created with the hashed password and no avatar, under the repository's rules |
| UserService.CreatedUserStoresHash | src/service/user.rs:66-72 | a created user is stored with bcrypt's hash of the password, not the password as typed, and with no avatar |
| UserService.Service.constructor | src/service/user.rs:15-20 | the service uses the given repositories |
| UserService.Service.Login | src/service/user.rs:26-54 | the sessions table and the result are those of `LoginSpec`; users are unchanged |
| UserService.Service.Logout | src/service/user.rs:56-59 | logout removes exactly the given session id and returns Ok |
| UserService.Service.GetUserBySession | src/service/user.rs:61-63 | the result is the session repository's lookup |
| UserService.Service.CreateUser | src/service/user.rs:65-74 | the users table becomes `CreateUserSpec`'s table, or stays unchanged with its error; sessions are unchanged |

## Left out

- Network calls (`fetch`, `fetcher.load`, the auth provider) and their timing are out of the model. The back end's answer is a parameter; the paginator's own page fetch and its `updateCallback` (Paginator.tsx:52-58) appear only as `Page.UpdatePosts`.
- Rendering, CSS, modals, toast options (delay and position) and the Yup, react-hook-form and router internals are out of the model. Toasts are recorded as a list of messages.
- Paginator.CurrentPageAsWritten: takes the requested page as an integer. `Number(...)` of a query string that is not a number gives NaN, which then makes `Math.min` NaN; that case is not modelled.
- Paginator.TotalPages: counts posts as an unbounded integer; JavaScript doubles are not modelled.
- Js.ParseInt: returns an unbounded integer; `parseInt`'s rounding to a double beyond 2^53 and its Infinity for huge numerals are not modelled.
- Clicking a page button (Paginator.tsx:77-79) just requests that page. `CurrentPage` covers what follows.
- DOM measurement (`scrollHeight > clientHeight`) is given as two integers to `ProfilePost.Measure`.
- Dates are opaque. `Date.now()` is a natural-number parameter, and date-fns formatting is left out.
- CreatePostDialog.Validate: reports one message per field. It takes the first failing test of the image, in declaration order. Yup's coercion of non-string values is not modelled.
- Pool and `interact` errors are out of the model, so the repository methods never fail on them. So are database failures other than a duplicate key, a missing referenced user, a missing row and an empty change set.
- `get_users` calls a `fetch_all_users` that the user repository does not define. It is not part of this model.
- The users table's `joined` column is omitted. The service builds users without it.
- The error variants that `src/error.rs` lacks (LoginError, SignUpError, InternalError, NotFoundError) are modelled as intended. A bcrypt hash failure has no conversion into `AppError`, so it is modelled as its own variant `CryptoError`.
- UserRepository.UpdateUserSpec: the filter compares the username column with an optional value. A missing username is modelled as a comparison with NULL, which matches no row.
- No operation here deletes users, and how the foreign key would treat a deleted user's sessions is not modelled. `UserBySessionSpec` keeps the `Ok(None)` case that the left join allows. Under the foreign-key invariant `SessionsOwned`, which `Database.Valid` includes, that case cannot occur (`UserBySessionOwned`).
- The password and session id types are strings. UUID formatting and bcrypt internals are out of the model.
- Concurrency is not modelled, including simultaneous logins racing between `add_session`'s delete and insert.

## Findings

| source | as written | input that shows it | evidently intended | confidence | as-written member | corrected member |
|---|---|---|---|---|---|---|
| frontend/src/components/Paginator.tsx:50 | the current page is only capped at the page count, so with no posts it is 0 | a user with 0 posts: "Showing -6 to 0 of 0 posts", Previous enabled and leading to page -1 | the current page lies in 1..totalPages (page 1 when there are none) | high, not executed | Paginator.EmptyFeedAsWritten | Paginator.EmptyFeed |
| frontend/src/components/Paginator.tsx:50 | a `page` parameter of 0 or below is used as is | `?page=0` with 10 pages: the bar reads 1, 2, 3, 0 (highlighted), "...", 8, 9, 10 | the same clamping, giving an ordered bar with page 1 highlighted | high, not executed | Paginator.BarOutOfRangeAsWritten | Paginator.BarForAnyRequest |
| frontend/src/pages/UserPage.tsx:84 | `&&` binds tighter than the or-operator, so the expression is `true` for a logged-out visitor, which renders nothing | any profile opened while logged out shows no avatar | visitors who are not the owner, logged in or not, see the read-only avatar | medium, not executed | UserPage.LoggedOutSeesNoAvatarAsWritten | UserPage.ExactlyOneAvatar |
