# CMSNews core in Dafny

A model of the decision logic of CMSNews, a small Express news CMS with a
Python scraper that produces seed data. Storage, hashing, the browser and
the template engine are abstracted away. What is left is a set of pure
functions over immutable records, together with the properties the code
promises about them:

- **Homepage listing** (`app.js`, `GET /`). The query builder turns the
  optional `search`, `category` and `tag` filters into a PostgreSQL data
  query and a count query. It is modelled as a sequence of literal and
  placeholder pieces rendered to text. Placeholder numbering (`$1..$n+2`)
  is read back out of the rendered text by a scanner.
  - The module also covers `parseInt`-based page numbers, `LIMIT 6 OFFSET
    (page-1)*6`, the page count and the deduplicated tag facet.
  - `ILIKE` is modelled as a pattern matcher over `%`, `_` and backslash
    escapes.
- **Article page** (`app.js`, `GET /post/:slug`): the slug lookup, the
  single view increment and the related-post selection.
- **Access gate** (`middleware/authMiddleware.js`). `requireLogin` and
  `requireRole` are decisions `ToLogin | Forbidden | Next`. Every route of
  `routes/admin.js` and `routes/posts.js` is a middleware chain that runs
  these decisions in order. The chains are proved against an independent
  role policy.
- **Accounts** (`controllers/authController.js`,
  `controllers/userController.js`): login, register, logout, add, delete,
  edit and update of users over a table keyed by a SERIAL id.
- **Articles** (`controllers/adminController.js`, `routes/posts.js`): add,
  edit page, update and delete of posts. The model records where `author`
  comes from, which fields an update keeps, and when the image is replaced.
- **Scraper escaping** (`gambar.py`): `safe_get_text`,
  `safe_get_attribute`, `format_sql_array` and the step of `scrape_article`
  that appends to the four lists. `format_sql_array` is partnered with a
  reader for the `TEXT[]` literal it writes, and the two are proved to
  round-trip.

Modules follow the program: `Text`, `SqlText`, `Like` and `JsNumber` are
the string, SQL-text, `ILIKE` and `parseInt` primitives. `Store`, `Crypto`
and `Records` hold the table, hashing and row types. `ListQuery`, `Listing`
and `PostDetail` model `app.js`. `Gate` and `Routes` model the middleware
and the route tables. `AuthController`, `UserController`,
`AdminController` and `PostRoutes` model the handlers. `Scraper` models
`gambar.py`.

Storage faults are a parameter (`fault`, or `PostDetail.Fault` where the
failing call matters). The salt of `bcrypt.hash`, multer's file name,
`slugify` and the database clock `NOW()` are parameters as well.

Some behaviour of the code is easy to misread. The model keeps it as
written:
- The tag filter `tags ILIKE '%tag%'` matches any substring of the whole
  tags string, so `ai` selects a post tagged `air`. It is not a
  whole-token match.
- `%` and `_` in the tag are not escaped.
- `addUser` stores a second user with a taken username. Only `register`
  checks for duplicates.
- A `penulis` session cannot delete through `/admin/delete/:id`, but can
  through `/api/posts/delete/:id`, which only checks for a session.

## Model

| member | source | states |
|---|---|---|
| ListQuery.BuildQueries | app.js:51-83 | the count query is the count base plus the same WHERE text as the data query; the data query adds ordering with LIMIT/OFFSET placeholders numbered right after the filter values; the data parameters are the count parameters plus `6` and the offset; every count parameter is a text value; the WHERE text is empty exactly when no filter is given |
| ListQuery.PlaceholdersNumbered | app.js:56-76 | reading the placeholders back out of the rendered data query gives exactly `$1..$n` for its `n` parameters, and the count query gives `$1..$m` for its `m` parameters |
| ListQuery.TextIndependentOfValues | app.js:56-76 | two requests that give the same filters (whatever their values) and any offsets produce identical data and count SQL text: user input reaches only the parameters |
| ListQuery.ParamsAsExpected | app.js:56-72 | the count parameters are three copies of `%search%` (when search is given), then the category, then `%tag%`, each only when given |
| ListQuery.WhereAsExpected | app.js:56-74 | the WHERE text is ` WHERE ` followed by the given conditions in the order search, category, tag joined by ` AND `, each numbered after the values bound before it, and is empty when none is given |
| ListQuery.RenderedConditions | app.js:56-72 | the conditions the builder pushes render as that fixed-order list |
| ListQuery.FirstSearchText | app.js:58 | a leading search condition reads `(title ILIKE $1 OR subtitle ILIKE $2 OR content ILIKE $3)` |
| ListQuery.TagFilterIsSubstring | app.js:69-72 | the tag condition's value is `%tag%`, which matches a tags string exactly when the tag occurs in it anywhere (for a tag without wildcards) |
| ListQuery.TagFilterMatchesInsideWords | app.js:69-71 | filtering on `ai` matches a post tagged `air` |
| ListQuery.TagWildcardsNotEscaped | app.js:71 | an `_` in the tag acts as a wildcard: `a_` matches `ab` though `ab` does not contain `a_` |
| ListQuery.WhereEmptyIffNoFilter | app.js:74 | ` WHERE ` is emitted iff at least one filter is given |
| SqlText.PlaceholdersOfRender | app.js:58-75 | for pieces whose literals hold no `$` and do not start with a digit, the scanner reads back from the rendered text exactly the placeholder numbers of the pieces, in order |
| Like.SubstringPattern | app.js:69-71 | `%t%` matches `s` iff `t` occurs in `s`, for `t` without wildcards or escapes |
| Listing.PageNumber | app.js:47 | an absent page, one that does not parse, or `0` gives page 1; any other parsed value, negatives included, is kept |
| Listing.PageNumberOfDecimal | app.js:47 | a positive page written in decimal selects that page |
| Listing.NegativePageKept | app.js:47-49 | `-n` is kept as page `-n` and gives a negative offset |
| JsNumber.ParseDecimal | app.js:47 | `parseInt` of a number's decimal rendering is that number |
| JsNumber.ParseNegativeDecimal | app.js:47 | `parseInt` of `-` followed by a decimal rendering is its negation |
| Listing.Offset | app.js:48-49 | the offset is a multiple of 6 and non-negative iff the page is at least 1 |
| Listing.TotalPages | app.js:84 | the least page count whose pages of 6 hold every matching row |
| Listing.Window | app.js:75-78 | an offset from 0 to the `bigint` maximum selects the (up to 6) rows from that offset on, in order; a negative offset or one beyond `bigint` is an error |
| Listing.PagesCoverRows | app.js:75-84 | pages `1..totalPages` laid end to end are exactly the matching rows, and every later page is empty, or an error once its offset passes `bigint` |
| Listing.TagTokensClean | app.js:90-94 | every facet tag holds no comma and neither starts nor ends with whitespace |
| Listing.FieldFromTokens | app.js:93 | a tags field whose tokens are already trimmed is recovered by joining its tokens with commas |
| Listing.Distinct | app.js:95 | each value once, exactly the values of the input, in order of first occurrence |
| Listing.HomePage | app.js:45-118 | the queries sent are the ones built from the filters and the page offset, with the filter values then `6` and the offset as parameters; a fault, a page before the first or an offset beyond `bigint` shows `Error loading posts`; otherwise the rows at that offset, the page count over all matching rows, the distinct tags in order of first occurrence and the echoed filters |
| Listing.PageBeyondBigint | app.js:47-78 | a page such as `2000000000000000000` parses as written and its offset makes the data query fail |
| Listing.SecondPageOfTen | app.js:47-84 | with ten matching rows there are two pages and `?page=2` shows the last four |
| PostDetail.Related | app.js:129-135 | none when the post has no category; otherwise other posts of its category, as many as there are up to 4, newest first, and no omitted candidate is newer than one shown |
| PostDetail.Candidates | app.js:129-134 | exactly the other posts with the same category, and none when the post has no category |
| PostDetail.PrecedesOrder | app.js:132 | the `created_at DESC` order (nulls first, ties by id) is strict, total and transitive |
| PostDetail.Newest | app.js:132 | the id of a non-empty set that sorts before every other under `created_at DESC` |
| PostDetail.Latest | app.js:132 | the first `n` ids of a set in `created_at DESC` order: as many as the set has up to `n`, all from the set, sorted, none left out that sorts before one kept |
| PostDetail.ShowPost | app.js:121-150 | an unknown slug answers `Post not found` and changes nothing; otherwise exactly the found post gets one more view and nothing else changes, the page shows the post as read before the update with its related posts, and a later fault answers 500 but keeps the view |
| PostDetail.TwoVisits | app.js:123-127 | two visits count two views on that post and change no other row |
| PostDetail.NotRelatedToItself | app.js:132 | the post is never among its own related posts |
| Store.FindFirst | app.js:123-125 | no match iff no row satisfies the condition; otherwise a matching row, the one with the least id |
| Store.Insert | controllers/authController.js:55-58 | the row gets the next id, which was unused, and every existing row is unchanged |
| Store.Delete | controllers/adminController.js:228 | that id is gone and every other row is unchanged |
| Store.Update | routes/posts.js:78-82 | the id's row is replaced when present, an absent id changes nothing, and no other row changes |
| Crypto.CompareHash | controllers/authController.js:19 | a password matches a digest made from it, whatever the salt, and no other password does |
| Crypto.Hash | controllers/authController.js:54 | the digest records cost factor 10 and the salt |
| Gate.RequireLogin | middleware/authMiddleware.js:2-5 | redirect to `/login` iff there is no session user, otherwise continue |
| Gate.RequireRole | middleware/authMiddleware.js:8-18 | no session user goes to `/login` whatever the roles; a session user continues iff the role is non-empty and listed, and gets 403 otherwise |
| Gate.Refusal | middleware/authMiddleware.js:10-14 | a refusal is the `/login` redirect or the 403 `Akses ditolak.` |
| Gate.RoleImpliesLogin | middleware/authMiddleware.js:2-18 | whatever the role check admits the login check admits, and whatever the login check sends to `/login` the role check does too |
| Gate.EmptyRolesDeny | middleware/authMiddleware.js:13-14 | `requireRole([])` refuses every session user |
| Gate.EmptyRoleNeverAdmits | middleware/authMiddleware.js:13-14 | a user without a role, or with an empty one, is refused even when `''` is listed |
| Gate.Run | routes/admin.js:22-41 | a chain ends refused by a middleware, at its handler, or past its end; a refusal is never `Next` |
| Routes.ChainsFollowPolicy | routes/admin.js:22-41 | every route of both routers ends as the role policy says: `/login` without a session, 403 without an admitted role, the handler otherwise, with the upload run only on the way to an upload handler |
| Routes.LoginFirst | routes/admin.js:22-41 | every route checks the session before anything else |
| Routes.UploadAfterChecks | routes/admin.js:25-27 | the upload stage comes after every access check |
| Routes.RefusedBeforeUpload | routes/admin.js:25-27 | a refused request never stores an upload |
| Routes.PenulisDeletes | routes/admin.js:28 | a `penulis` session gets 403 from `/admin/delete/:id` but reaches the delete handler of the article router |
| Routes.UsersOwnersOnly | routes/admin.js:35-41 | a session reaches a user-management handler iff its role is `superadmin` |
| AuthController.FindUser | controllers/authController.js:13 | no row iff no user has that name; otherwise a row with that name |
| AuthController.Login | controllers/authController.js:10-38 | dashboard redirect with the session set to the row's id, username, role and full name iff the user exists and the password matches; otherwise the login view with the same error for an unknown user and a wrong password, the server error on a fault, and the session unchanged |
| AuthController.FailuresAlike | controllers/authController.js:14-22 | an unknown username and a wrong password give identical results |
| AuthController.Register | controllers/authController.js:46-66 | a taken name renders `Username sudah digunakan` and a fault the server error, both storing nothing; otherwise the row is stored with the password's digest and the role as submitted, then `/login` |
| AuthController.RegisterThenLogin | controllers/authController.js:46-60 | logging in with the credentials just registered succeeds with the new row in the session |
| AuthController.RegisterTwice | controllers/authController.js:49-52 | registering the same name again is refused and stores nothing |
| AuthController.Logout | controllers/authController.js:69-72 | the session is gone, the browser goes to `/login`, and guarded routes send it there again |
| UserController.AddUser | controllers/userController.js:25-31 | the row is stored with the password's digest and the user list shown; on a fault or missing password the handler rejects without answering and stores nothing |
| UserController.AddUserDuplicates | controllers/userController.js:25-31 | adding a taken username stores a second row with that name |
| UserController.AddThenDelete | controllers/userController.js:25-38 | adding a user and deleting the id it was given leaves the rows as they were |
| UserController.DeleteUser | controllers/userController.js:34-38 | only that user goes; on a fault the handler rejects without answering |
| UserController.EditUserPage | controllers/userController.js:42-58 | the form with that row, `User tidak ditemukan` for a missing id, `Error loading user` on a fault |
| UserController.AddThenEditUserPage | controllers/userController.js:25-58 | the edit page of a user just added shows exactly the row added, with the password's digest |
| UserController.UpdateUser | controllers/userController.js:61-79 | the row takes the submitted username and role and keeps its full name; no other row and no id changes; a fault changes nothing |
| UserController.PasswordOnlyWhenGiven | controllers/userController.js:66-72 | a missing or whitespace-only password keeps the stored digest; any other replaces it with its own digest, which then matches it |
| UserController.UpdateThenEditUserPage | controllers/userController.js:42-79 | after an edit, the edit page of that user shows the submitted username and role and the full name it had |
| AdminController.AddPost | controllers/adminController.js:155-172 | stores a new row with the session user as author id, `/uploads/<file>` or no image, the slug of the title, no views, created now; a fault stores nothing |
| AdminController.AuthorName | controllers/adminController.js:178-183 | the author's username when the author row exists, otherwise none |
| AdminController.EditArticlePage | controllers/adminController.js:175-197 | the form with the post and author name, `Post not found` for a missing id, `Error loading post` on a fault |
| AdminController.AddedPostShowsAuthor | controllers/adminController.js:159-185 | the edit page of a post just added shows the logged-in user's username as its author |
| AdminController.UpdatePost | controllers/adminController.js:200-222 | the form's fields are written, the image only when a file came, update time now; author id, author, slug, views and creation time are kept; no other row changes |
| AdminController.UpdateIdempotent | controllers/adminController.js:206-216 | re-submitting the same form without a file changes nothing but the update time |
| AdminController.DeletePost | controllers/adminController.js:225-234 | only that post goes; a fault changes nothing (the delete handler of routes/posts.js:89-95 runs the same statement with the same answers, and is modelled by this member too) |
| PostRoutes.Auth | routes/posts.js:8-11 | redirect to `/login` iff there is no session user |
| PostRoutes.AuthIsRequireLogin | routes/posts.js:8-11 | the local guard decides as `requireLogin` does for every request |
| PostRoutes.Add | routes/posts.js:47-59 | stores the row with the author as typed in the form, no author id, the database clock as its creation time (the column default), the uploaded image or none, and the slug |
| PostRoutes.EditPage | routes/posts.js:63-70 | the form with the post, `Post not found` for a missing id, `Error fetching post` on a fault |
| PostRoutes.Update | routes/posts.js:72-86 | the form's fields and author are written, the image only when a file came; slug, views, author id and timestamps are kept; no other row changes |
| PostRoutes.AddThenRemove | routes/posts.js:47-95 | adding a post through the article router and deleting it again leaves the rows as they were |
| PostRoutes.AddThenEditPage | routes/posts.js:47-70 | the edit page of a post just added through the article router shows the submitted fields, the author as typed, the image, the slug and the database clock as creation time |
| PostRoutes.UpdateThenEditPage | routes/posts.js:63-86 | after an edit, the edit page shows the submitted fields, the new image only when a file came, and the old slug |
| PostRoutes.UpdateIdempotent | routes/posts.js:72-86 | submitting the same edit twice leaves the table as one submission does |
| Records.UploadedImage | routes/posts.js:49 | an image path iff a file was uploaded, `/uploads/` followed by its name |
| Text.Trim | app.js:93 | the result is the block of the input after its leading whitespace, and neither starts nor ends with whitespace |
| Text.TrimSurroundings | app.js:93 | what trimming drops on both sides is all whitespace |
| Text.TrimEmptyIffBlank | controllers/userController.js:66 | trimming gives the empty string iff the input is all whitespace |
| Text.JoinSplit | app.js:93 | joining the comma-split parts with commas gives back the field |
| Text.DecimalRoundTrip | app.js:58 | the digits of a rendered number read back as that number |
| Scraper.Replace | gambar.py:60 | a replaced character is gone unless the replacement brings it back; other characters are present iff they were |
| Scraper.UndoubleEscape | gambar.py:60 | reading `''` as `'` undoes quote doubling |
| Scraper.ReplaceCommute | gambar.py:60 | replacing two different characters gives the same text in either order when neither replacement contains the other character |
| Scraper.SafeTextOneLine | gambar.py:58-60 | `safe_get_text` output holds no `\n` or `\r` |
| Scraper.SafeTextUndoubles | gambar.py:58-60 | `safe_get_text` output is the quote-escaped stripped text with CR and LF turned into spaces, so undoubling its quotes gives that text back |
| Scraper.TextsRoundTrip | gambar.py:55-150 | a list of `safe_get_text` outputs written as a `TEXT[]` literal reads back as the stripped, one-line texts they came from |
| Scraper.SafeTextTrimmed | gambar.py:58-60 | `safe_get_text` output neither starts nor ends with whitespace, and is empty iff the text was all whitespace |
| Scraper.SafeGetAttribute | gambar.py:65-73 | empty iff the value is absent or empty; otherwise quotes are doubled and line breaks kept |
| Scraper.AttributeUndoubles | gambar.py:68-70 | undoubling the quotes of `safe_get_attribute` output gives the value back |
| Scraper.ArrayRoundTrip | gambar.py:144-150 | reading back the `TEXT[]` literal of the escaped items gives the items in order, for every list including the empty one |
| Scraper.ReadEscapedItems | gambar.py:149-150 | the quoted items joined by `,\n  ` and closed by `\n]` read back as the items |
| Scraper.FirstImage | gambar.py:108-127 | the image URL is empty iff no selector's element has a non-empty `src` |
| Scraper.PickImage | gambar.py:118-125 | the loop over the selectors finds the URL of the first selector with a non-empty `src` |
| Scraper.NonEmpty | gambar.py:98 | exactly the non-empty paragraph texts |
| Scraper.ScrapeArticle | gambar.py:75-142 | an article with a non-empty title is appended to all four lists, with content falling back to the subtitle; otherwise nothing is appended |
| Scraper.ScrapeAll | gambar.py:300-313 | `main`'s loop, applying the append step of `scrape_article` to each page in turn: the four lists stay the same length, growing by the number of accepted articles |
| Scraper.CountSnoc | gambar.py:130-138 | each accepted article adds one to the count and a rejected one adds none |
| Scraper.ContentFallback | gambar.py:133 | the stored content is empty iff both content and subtitle are |
| Scraper.JoinNonEmpty | gambar.py:99 | joining non-empty paragraph texts with spaces is empty iff there are none |
| Scraper.UndoubleConcat | gambar.py:60 | undoubling a text whose second piece starts with no quote undoubles each piece |
| Scraper.UndoubleJoin | gambar.py:60-99 | undoubling a space-joined text gives the space join of the undoubled parts |
| Scraper.SafeTextFlat | gambar.py:55-62 | a paragraph's `safe_get_text` output undoubles to its stripped one-line text, and is empty exactly when that text is |
| Scraper.NonEmptyPaired | gambar.py:98 | dropping empty texts keeps a one-to-one undoubling relation between two lists of texts |
| Scraper.NonEmptyUndoubled | gambar.py:93-99 | the non-empty escaped paragraph texts undouble, in order, to the non-empty stripped one-line texts |
| Scraper.ContentUndoubles | gambar.py:93-99 | the stored content with its quotes undoubled is the space join of the stripped, one-line texts of the non-blank paragraphs |

## Left out

- The Selenium driver, page loads, waits, scrolling, `main` and `save_to_sql_file` in `gambar.py` are browser and file I/O. Each article is modelled from already extracted strings (`None` where reading raises).
- SQL execution is not modelled. A `posts` or `users` table is a map from SERIAL id to row, and `rows[0]` of a lookup on a non-key column is the matching row with the least id, since the database promises no order.
- `ILIKE` is modelled without case folding. A trailing backslash in a pattern, which the database rejects, is treated as not matching.
- The category list, the two trending queries, `COUNT(*)` and the dashboards and article lists of the admin panel are not modelled. They are read-only queries. The homepage's `ORDER BY created_at DESC` is not evaluated: the matching rows arrive already in that order.
- PostDetail.Related: the database leaves the order of posts with equal creation times open; the model puts the smaller id first, so which of several equally new posts fill the last places is the model's choice.
- `slugify`, multer's file names and `NOW()` are parameters: the first is an external library, and the other two are nondeterministic.
- bcrypt is modelled by `Crypto.Hash`/`Crypto.Compare`. The random salt is a parameter. The 72-byte truncation is not modelled.
- EJS rendering, layouts, `res.locals` and the session store are not modelled. A rendered page is its view name and error text.
- `db.js` (connection settings) is not modelled.
- `routes/index.js` and `routes/users.js` are not mounted by `app.js` and are not modelled.
- The route table of `routes/auth.js` and its `redirectIfLoggedIn` guard for the login and register pages are not modelled. The handlers it routes to are.
- The controllers use `?` placeholders and `[rows]` destructuring against a `pg` pool. The model follows the intended reading of each statement, not the driver's behaviour with this mismatch.
- Express query values that arrive as arrays are not modelled. Each filter is one optional string.
- A handler that rejects without a `catch` is modelled up to the rejection (`NoResponse`): no redirect and nothing stored. What the server does next depends on the Express and Node versions, which the sources do not fix (Express 5 answers 500; Express 4 on Node 15 or later ends the process), and is not modelled.
- Form bodies: `title`, `subtitle`, `content` and `author` of the article forms and `username` of the account forms are always present strings. The paths where one is missing are not modelled: a missing `title` makes `slugify` throw outside the `try`, so the handler rejects without answering, and a missing `subtitle` or `author` stores NULL.
- PostRoutes.Add: the creation time of an article added through `/api/posts` is the database clock read by the `created_at` column default, which the model takes to be `CURRENT_TIMESTAMP`, as in the table the scraper creates; its `views` start at the column default, which the model takes to be 0 (so do those of `AdminController.AddPost`). The `posts` schema is not part of this model.
- `parseInt` results are exact integers. Floating-point rounding of very long digit strings is not modelled, so a page whose offset lies between 2^53 and the `bigint` maximum is exact in the model; the `bigint` bound on the offset is modelled.
- Non-numeric route ids are not modelled. Route ids are natural numbers.
- Scraper.ScrapeAll: its contract states only that the lists stay aligned and how much they grow. What each article appends is stated by Scraper.ScrapeArticle, which the loop applies.
