/**
 The query helpers of a board section (`Section.threads`, `op_posts`, `posts`,
 `files`, `allowed_filetypes`): each is a filter over the store's rows,
 joined through foreign keys, followed by the ordering the query asks for.
 */
module Sections {
  import opened Records
  import opened Ordering

  /** `order_by("-bump", "-id")`: later bump first, then higher id first. */
  predicate BumpOrder(a: Thread, b: Thread) {
    a.bump > b.bump || (a.bump == b.bump && a.id >= b.id)
  }

  /** `order_by("-date", "-pid")`: later date first, then higher pid first. */
  predicate NewestFirst(a: Post, b: Post) {
    a.date > b.date || (a.date == b.date && a.pid >= b.pid)
  }

  lemma BumpOrderIsTotalPreorder()
    ensures TotalPreorder(BumpOrder)
  {
  }

  lemma NewestFirstIsTotalPreorder()
    ensures TotalPreorder(NewestFirst)
  {
  }

  /** The join `thread__section=section`: the post's thread exists and lies in the section. */
  predicate PostInSection(store: Store, p: Post, section: nat) {
    p.thread.Some? && exists t | t in store.threads :: t.id == p.thread.value && t.section == section
  }

  /** The join `post__thread__section=section`: the file's owning post lies in the section. */
  predicate FileInSection(store: Store, f: File, section: nat) {
    exists p | p in store.posts :: p.file == Some(f.id) && PostInSection(store, p, section)
  }

  /** `Section.threads`: the section's threads, most recently bumped first. */
  function Threads(store: Store, section: Section): (r: seq<Thread>)
    ensures forall t :: t in r <==> t in store.threads && t.section == section.id
    ensures forall t :: multiset(r)[t] == if t.section == section.id then multiset(store.threads)[t] else 0
    ensures Sorted(r, BumpOrder)
  {
    BumpOrderIsTotalPreorder();
    var rows := Filter(store.threads, (t: Thread) => t.section == section.id);
    var r := SortBy(rows, BumpOrder);
    assert multiset(r) == multiset(rows);
    assert forall t :: t in r <==> multiset(r)[t] > 0;
    r
  }

  /** The rows the posts join of a section selects, in storage order. */
  function SectionPostRows(store: Store, section: nat): (r: seq<Post>)
    ensures forall p :: multiset(r)[p] == if PostInSection(store, p, section) then multiset(store.posts)[p] else 0
  {
    Filter(store.posts, (p: Post) => PostInSection(store, p, section))
  }

  /** `Section.posts`: every post of every thread of the section, newest first. */
  function Posts(store: Store, section: Section): (r: seq<Post>)
    ensures forall p :: p in r <==> p in store.posts && PostInSection(store, p, section.id)
    ensures forall p :: multiset(r)[p] == if PostInSection(store, p, section.id) then multiset(store.posts)[p] else 0
    ensures Sorted(r, NewestFirst)
  {
    NewestFirstIsTotalPreorder();
    var rows := SectionPostRows(store, section.id);
    var r := SortBy(rows, NewestFirst);
    assert multiset(r) == multiset(rows);
    assert forall p :: p in r <==> multiset(r)[p] > 0;
    r
  }

  function IsOpPost(p: Post): bool {
    p.opPost
  }

  /** `Section.op_posts`, filtering on the flag Post declares: the section's opening posts, newest first. */
  function OpPosts(store: Store, section: Section): (r: seq<Post>)
    ensures forall p :: p in r <==> p in store.posts && p.opPost && PostInSection(store, p, section.id)
    ensures forall p :: multiset(r)[p] == if p.opPost && PostInSection(store, p, section.id) then multiset(store.posts)[p] else 0
    ensures Sorted(r, NewestFirst)
  {
    NewestFirstIsTotalPreorder();
    var rows := Filter(SectionPostRows(store, section.id), IsOpPost);
    var r := SortBy(rows, NewestFirst);
    assert multiset(r) == multiset(rows);
    assert forall p :: p in r <==> multiset(r)[p] > 0;
    r
  }

  /** The opening posts are exactly the flagged posts of `Posts`, in the same order. */
  lemma OpPostsAreFlaggedPosts(store: Store, section: Section)
    ensures OpPosts(store, section) == Filter(Posts(store, section), IsOpPost)
  {
    NewestFirstIsTotalPreorder();
    FilterSortBy(SectionPostRows(store, section.id), NewestFirst, IsOpPost);
  }

  /** The name of the opening-post flag as Post declares it. */
  const OpPostField: string := "op_post"

  /** The keyword the `op_posts` query filters on. */
  const OpPostsKeyword: string := "is_op_post"

  /**
   The names a filter keyword on Post can start with: the fields Post
   declares, the implicit `id` and its alias `pk`, and `thread_id` and
   `file_id`, the columns of its two foreign keys.
   */
  const PostFields: set<string> := {
    "id", "pk", "pid", "thread", "thread_id", "op_post", "date", "poster",
    "tripcode", "email", "topic", "file", "file_id", "password", "message",
    "message_html"
  }

  /** The field a filter keyword names: the text before its first `__`, if any. */
  function FieldPart(keyword: string): (f: string)
    ensures f <= keyword
    decreases |keyword|
  {
    if |keyword| < 2 then keyword
    else if keyword[0] == '_' && keyword[1] == '_' then []
    else [keyword[0]] + FieldPart(keyword[1..])
  }

  /** A keyword with no `__` in it names a field by its whole text. */
  lemma {:induction false} FieldPartOfPlainName(keyword: string)
    requires forall i :: 0 <= i < |keyword| - 1 ==> keyword[i] != '_' || keyword[i + 1] != '_'
    ensures FieldPart(keyword) == keyword
    decreases |keyword|
  {
    if |keyword| >= 2 {
      FieldPartOfPlainName(keyword[1..]);
      assert keyword == [keyword[0]] + keyword[1..];
    }
  }

  datatype QueryError = FieldError(field: string)

  /** The flag's own name names the flag. */
  lemma OpPostFieldIsPlain()
    ensures FieldPart(OpPostField) == OpPostField && OpPostField in PostFields
  {
    assert forall i :: 0 <= i < |OpPostField| - 1 ==> OpPostField[i] != '_' || OpPostField[i + 1] != '_';
    FieldPartOfPlainName(OpPostField);
  }

  /**
   The `op_posts` query with its flag keyword given by name. The ORM resolves
   the field a keyword names against the names Post has and fails with a
   field error when there is none. A keyword that resolves to a field other
   than the flag would filter on that field instead; that query is not
   `op_posts` and is not modelled.
   */
  function OpPostsFilteredOn(store: Store, section: Section, keyword: string): (r: Result<seq<Post>, QueryError>)
    requires keyword == OpPostField || FieldPart(keyword) !in PostFields
    ensures r.Ok? <==> keyword == OpPostField
    ensures r.Ok? ==> r.value == Filter(Posts(store, section), IsOpPost)
    ensures r.Err? ==> r.error == FieldError(FieldPart(keyword))
  {
    OpPostFieldIsPlain();
    if FieldPart(keyword) !in PostFields then
      Err(FieldError(FieldPart(keyword)))
    else
      OpPostsAreFlaggedPosts(store, section);
      Ok(OpPosts(store, section))
  }

  /** `is_op_post` is not a name Post has: none of them is ten characters long. */
  lemma OpPostsKeywordIsNoName()
    ensures OpPostsKeyword !in PostFields
  {
    assert |OpPostsKeyword| == 10;
    assert forall f | f in PostFields :: |f| < 10 || 10 < |f|;
  }

  /** `is_op_post` has no `__`, so it names a field by its whole text. */
  lemma OpPostsKeywordIsPlain()
    ensures FieldPart(OpPostsKeyword) == OpPostsKeyword
  {
    var k := OpPostsKeyword;
    assert k == ['i', 's', '_', 'o', 'p', '_', 'p', 'o', 's', 't'];
    assert forall i :: 0 <= i < |k| - 1 ==> k[i] != '_' || k[i + 1] != '_';
    FieldPartOfPlainName(k);
  }

  /** As written, `op_posts` names no field of Post, so it never returns a list. */
  lemma OpPostsAsWrittenFails(store: Store, section: Section)
    ensures FieldPart(OpPostsKeyword) !in PostFields
    ensures OpPostsFilteredOn(store, section, OpPostsKeyword) == Err(FieldError(OpPostsKeyword))
  {
    OpPostsKeywordIsNoName();
    OpPostsKeywordIsPlain();
    var r := OpPostsFilteredOn(store, section, OpPostsKeyword);
    assert r.Err?;
  }

  /** `Section.files`: the files owned by the section's posts, in storage order. */
  function Files(store: Store, section: Section): (r: seq<File>)
    ensures forall f :: f in r <==> f in store.files && FileInSection(store, f, section.id)
    ensures forall f :: multiset(r)[f] == if FileInSection(store, f, section.id) then multiset(store.files)[f] else 0
    ensures IsSubsequence(r, store.files)
  {
    Filter(store.files, (f: File) => FileInSection(store, f, section.id))
  }

  /** `Section.allowed_filetypes`: the (MIME, extension) pairs of the section's allowed file types. */
  function AllowedFiletypes(store: Store, section: Section): (r: seq<(string, string)>)
    ensures forall pair :: pair in r <==>
      exists ft | ft in store.fileTypes :: ft.id in section.fileTypes && pair == (ft.mime, ft.extension)
  {
    var allowed := Filter(store.fileTypes, (ft: FileType) => ft.id in section.fileTypes);
    var r := seq(|allowed|, i requires 0 <= i < |allowed| => (allowed[i].mime, allowed[i].extension));
    forall pair | pair in r
      ensures exists ft | ft in store.fileTypes :: ft.id in section.fileTypes && pair == (ft.mime, ft.extension)
    {
      var i :| 0 <= i < |r| && r[i] == pair;
      assert allowed[i] in allowed;
    }
    forall ft | ft in store.fileTypes && ft.id in section.fileTypes
      ensures (ft.mime, ft.extension) in r
    {
      assert ft in allowed;
      var i :| 0 <= i < |allowed| && allowed[i] == ft;
      assert r[i] == (ft.mime, ft.extension);
    }
    r
  }
}
