# Freakhouse board models in Dafny

A model of the logic in the imageboard's data layer (`freakhouse/board/models.py`):
sections (boards) own threads, threads own posts, and a post may own one
uploaded file. The database tables are modelled as a `Store` of record
sequences with integer ids and foreign keys (`records.dfy`); the ORM's
`filter(...)` and `order_by(...)` become a filter in storage order followed by
a stable sort (`ordering.dfy`). On top of that the model covers:

- **Upload path naming** (`resolvers.dfy`): `files_resolver` and
  `thumbs_resolver` build `section/<hundredths><salt>.<ext>` and
  `thumbs/<hundredths><salt>.<ext>`. The clock reading and the random salt are
  parameters. A parser splits a path back into its parts, which shows that two
  paths collide only when timestamp, salt and extension all agree, and that an
  attachment path is never a thumbnail path.
- **Section queries** (`sections.dfy`): the threads, posts, opening posts,
  files and allowed file types of a section. Each holds exactly the matching
  rows and is in the order the query asks for.
- **Thread windowing** (`threads.dfy`): a thread's posts in pid order, its
  opening post, `thread_info` and `last_posts`. `last_posts` shows the opening
  post and the last five posts, and `skipped` is exactly the number of posts it
  hides.
- **Post labels** (`posts.dfy`): `Post.__str__` gives `Thread № <pid>` for an
  opening post and `Post № <pid>` for any other. The label tells the kind and
  the pid apart.

`skipped = start - 1` can look like an off-by-one, since the opening post
is shown separately from the slice that starts at `start`. It is exact: `Threads.LastPostsHidesTheMiddle`
proves that a long thread is the shown opening post, then `skipped` hidden
posts, then the shown tail. `Threads.LastPosts` proves that `skipped` equals
the number of posts minus the number shown.

## Model

| member | source | states |
|---|---|---|
| `Resolvers.FilesResolver` | freakhouse/board/models.py:9-13 | the path starts with `section/`, ends with `.` and the file type's extension, and parses back into the timestamp, the salt and the extension; since the parser accepts only the generated spelling (`Resolvers.ParseUploadPathSound`), the path is `section/`, the timestamp in decimal without leading zeros, the two salt digits, `.` and the extension |
| `Resolvers.ThumbsResolver` | freakhouse/board/models.py:16-20 | the path starts with `thumbs/`, ends with `.` and the file type's extension, and parses back into the timestamp, the salt and the extension, so it is the timestamp without leading zeros followed by the two salt digits |
| `Resolvers.ParseUploadPathSound` | freakhouse/board/models.py:9-20 | every path the parser accepts is exactly the generated path of the parts it returns, with a salt in 10..99: timestamp and salt are written in decimal with no leading zero |
| `Resolvers.ParseUploadPathRoundTrip` | freakhouse/board/models.py:10-13 | for any prefix, any timestamp, any salt in 10..99 and any extension, the generated path parses back into exactly those parts |
| `Resolvers.FilesPathsCollideOnlyOnSameInputs` | freakhouse/board/models.py:9-13 | two attachment paths are equal if and only if timestamp, salt and extension are equal |
| `Resolvers.ThumbsPathsCollideOnlyOnSameInputs` | freakhouse/board/models.py:16-20 | two thumbnail paths are equal if and only if timestamp, salt and extension are equal |
| `Resolvers.FilesAndThumbsNeverCollide` | freakhouse/board/models.py:9-20 | no attachment path equals a thumbnail path |
| `Numerals.Decimal` | freakhouse/board/models.py:10-12 | the rendering of an integer in a path or label is non-empty, all digits, and starts with `0` only for zero, so it has no leading zero |
| `Numerals.DecimalOfParse` | freakhouse/board/models.py:10-12 | a digit string with no leading zero is the rendering of the number it parses to |
| `Numerals.DecimalInjective` | freakhouse/board/models.py:10-12 | two integers have the same rendering if and only if they are equal |
| `Numerals.ParseDecimal` | freakhouse/board/models.py:10-12 | parsing the decimal rendering of `n` gives `n` |
| `Numerals.TwoDigits` | freakhouse/board/models.py:12 | a salt drawn from 10..99 is rendered as exactly two digits |
| `Sections.Threads` | freakhouse/board/models.py:75-76 | holds exactly the store's threads of the section, each as often as it is stored, ordered by bump descending and then id descending |
| `Sections.Posts` | freakhouse/board/models.py:85-88 | holds exactly the posts whose thread exists and lies in the section, ordered by date descending and then pid descending |
| `Sections.OpPosts` | freakhouse/board/models.py:78-83 | holds exactly the section's posts that carry the opening-post flag, ordered by date descending and then pid descending |
| `Sections.OpPostsAreFlaggedPosts` | freakhouse/board/models.py:78-88 | the opening posts are the flagged posts of the section's post list, in the same order |
| `Sections.OpPostsFilteredOn` | freakhouse/board/models.py:80-83 | for the flag's own name `op_post` or a keyword that names none of Post's fields (lines 146-157, `id`, `pk`, `thread_id`, `file_id`): the query succeeds exactly for `op_post`, giving the flagged section posts, and otherwise is a field error naming the unresolved field |
| `Sections.OpPostsAsWrittenFails` | freakhouse/board/models.py:80-83 | `is_op_post` is not a name Post has, so with the keyword as written the query fails with a field error naming `is_op_post` |
| `Sections.Files` | freakhouse/board/models.py:90-92 | holds exactly the files owned by a post of the section, each as often as it is stored, in storage order |
| `Sections.AllowedFiletypes` | freakhouse/board/models.py:94-96 | a (MIME, extension) pair occurs if and only if some stored file type allowed by the section has that MIME type and extension |
| `Threads.Posts` | freakhouse/board/models.py:159-161 | holds exactly the posts that reference the thread, in ascending pid order |
| `Threads.OpPost` | freakhouse/board/models.py:127-129 | none exactly when the thread has no post; otherwise a post of the thread whose pid is the smallest |
| `Threads.ThreadInfo` | freakhouse/board/models.py:114-125 | up to `limit` posts: untruncated with `total`, `skipped = 0`, `skipped_files = 0`; more: `start >= 1`, `stop = total`, `stop - start = limit`, `skipped = start - 1` |
| `Threads.LastPosts` | freakhouse/board/models.py:131-138 | the result is an order-preserving subsequence of the thread's posts, holds all of them up to six posts and six otherwise, keeps the first and the last post, shows exactly the last five after the first when there are more than six, and `skipped` is the number of posts left out |
| `Threads.LastPostsWhenNothingSkipped` | freakhouse/board/models.py:132-135 | nothing is skipped if and only if there are at most six posts; then every post is returned, and for six posts the head-plus-slice form gives the same list |
| `Threads.LastPostsHidesTheMiddle` | freakhouse/board/models.py:119-138 | for more than six posts, the thread is the shown opening post, then exactly `skipped` hidden posts, then the shown tail |
| `Threads.LastPostsOfThread` | freakhouse/board/models.py:127-138 | the window over a thread holds only that thread's posts, in pid order, and starts with the thread's opening post |
| `Threads.TwelvePostThread` | freakhouse/board/models.py:114-138 | a twelve-post thread reports start 7, stop 12, skipped 6 and shows post 1 and posts 8 to 12 |
| `Posts.Label` | freakhouse/board/models.py:169-172 | the label starts with `Thread № ` exactly for an opening post and with `Post № ` exactly for any other post, and the rest is the pid in decimal with no leading zero |
| `Posts.LabelsDistinguishPosts` | freakhouse/board/models.py:169-172 | two posts have equal labels if and only if they agree on the opening-post flag and the pid |

## Left out

- Persistence, database constraints (`max_length`, `unique=True` on the slug, the bounds of positive small integer fields), field defaults, `Meta.get_latest_by` and query laziness are enforced by the database and the ORM. The model keeps only what each query returns.
- Rows that tie under an `order_by` (same bump and id, same date and pid, same pid) come back in an order the database does not fix. The model keeps their storage order.
- `Sections.Files`: the query has no `order_by`, so the database fixes no order; the model states storage order.
- `Sections.AllowedFiletypes`: states which pairs occur, not their order or how many times each occurs.
- The clock and the random number generator in the resolvers are parameters. The resolvers take the clock reading already in whole hundredths of a second, so the floating-point product `time() * 100` and its truncation are not modelled, and neither is a clock before 1970. Collision probability is not modelled.
- The resolvers' `filename` argument is unused by the source and is not a parameter. The instance's file type is passed in directly instead of being reached through the file's foreign key.
- `Section.get_absolute_url` and `Thread.get_absolute_url` (lines 101-102, 140-141) are URL resolution by the framework. `Thread.get_absolute_url` reads a `slug` attribute that `Thread` does not have.
- `File.post` (lines 43-45) is a reverse lookup whose failure behaviour belongs to the ORM.
- `Post.section` and `Post.section_slug` (lines 163-167) traverse foreign keys and raise when the post has no thread; the section queries model the same join as `Sections.PostInSection`.
- The `__str__` methods of FileType, File and Section each return one field unchanged.
- `freakhouse/board/views.py`, `urls.py`, `apps.py` and `admin.py` are framework configuration: generic list and detail views, prefetching, routes, app registration and an empty admin class. `ThreadDetailView.get_queryset` filters posts on a `slug` field that Post does not have.

## Findings

| source | as written | input that shows it | evidently intended | confidence | as-written member | corrected member |
|---|---|---|---|---|---|---|
| freakhouse/board/models.py:81 | `op_posts` filters on `is_op_post=True`, but Post declares its flag as `op_post` (line 148), so the ORM cannot resolve the keyword and raises a field error | `op_posts()` on any section, even one with no threads | filter on the declared field `op_post` | high; not executed | `Sections.OpPostsAsWrittenFails` | `Sections.OpPosts` |
