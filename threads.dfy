/**
 A thread's posts in pid order (`Thread.posts`), its opening post
 (`Thread.op_post`), and the display window over its posts: `thread_info`
 says how many posts a listing hides, `last_posts` gives the posts it shows,
 namely the opening post followed by the last few posts.
 */
module Threads {
  import opened Records
  import opened Ordering

  /** Post's default ordering, by ascending pid. */
  predicate PidOrder(a: Post, b: Post) {
    a.pid <= b.pid
  }

  lemma PidOrderIsTotalPreorder()
    ensures TotalPreorder(PidOrder)
  {
  }

  /** `Thread.posts`: the posts that reference the thread, in pid order. */
  function Posts(store: Store, thread: Thread): (r: seq<Post>)
    ensures forall p :: p in r <==> p in store.posts && p.thread == Some(thread.id)
    ensures forall p :: multiset(r)[p] == if p.thread == Some(thread.id) then multiset(store.posts)[p] else 0
    ensures Sorted(r, PidOrder)
  {
    PidOrderIsTotalPreorder();
    var rows := Filter(store.posts, (p: Post) => p.thread == Some(thread.id));
    var r := SortBy(rows, PidOrder);
    assert multiset(r) == multiset(rows);
    assert forall p :: p in r <==> multiset(r)[p] > 0;
    r
  }

  /** `Thread.op_post`: the thread's post with the smallest pid, if it has any post. */
  function OpPost(store: Store, thread: Thread): (r: Option<Post>)
    ensures r.None? <==> forall p | p in store.posts :: p.thread != Some(thread.id)
    ensures r.Some? ==> r.value in store.posts && r.value.thread == Some(thread.id)
    ensures r.Some? ==> forall p | p in store.posts && p.thread == Some(thread.id) :: r.value.pid <= p.pid
  {
    var posts := Posts(store, thread);
    if posts == [] then None
    else
      assert posts[0] in posts;
      assert forall p | p in posts :: posts[0].pid <= p.pid by {
        forall p | p in posts ensures posts[0].pid <= p.pid {
          var k :| 0 <= k < |posts| && posts[k] == p;
          if k > 0 {
            assert PidOrder(posts[0], posts[k]);
          }
        }
      }
      Some(posts[0])
  }

  /** The window size `last_posts` uses: the default `limit` of `thread_info`. */
  const DefaultLimit: nat := 5

  /**
   What `thread_info` reports: for a thread that fits in the window, its size
   with nothing skipped; otherwise the bounds `start` and `stop` of the
   trailing slice and the number of posts `skipped` between it and the
   opening post.
   */
  datatype PostsInfo =
    | Untruncated(total: nat, skipped: nat, skippedFiles: nat)
    | Truncated(total: nat, start: nat, stop: nat, skipped: nat)

  /** `Thread.thread_info` over the thread's posts in pid order. */
  function ThreadInfo(posts: seq<Post>, limit: nat): (r: PostsInfo)
    ensures r.total == |posts|
    ensures r.Untruncated? <==> |posts| <= limit
    ensures r.Untruncated? ==> r.skipped == 0 && r.skippedFiles == 0
    ensures r.Truncated? ==> 1 <= r.start && r.stop == |posts| && r.stop - r.start == limit
    ensures r.Truncated? ==> r.skipped == r.start - 1
  {
    var total := |posts|;
    if total <= limit then Untruncated(total, 0, 0)
    else
      var start := total - limit;
      Truncated(total, start, total, start - 1)
  }

  /**
   `Thread.last_posts` over the thread's posts in pid order: all of them when
   nothing is skipped, otherwise the opening post followed by the slice
   `[start, stop)`. The result keeps the order of the input, shows the
   opening post and the last post, and leaves out exactly `skipped` posts;
   past the opening post, a long thread shows exactly its last `DefaultLimit`.
   */
  function LastPosts(posts: seq<Post>): (r: seq<Post>)
    ensures |r| == if |posts| <= DefaultLimit + 1 then |posts| else DefaultLimit + 1
    ensures ThreadInfo(posts, DefaultLimit).skipped == |posts| - |r|
    ensures IsSubsequence(r, posts)
    ensures posts != [] ==> r != [] && r[0] == posts[0] && r[|r| - 1] == posts[|posts| - 1]
    ensures |posts| > DefaultLimit + 1 ==> r[1..] == posts[|posts| - DefaultLimit..]
  {
    var info := ThreadInfo(posts, DefaultLimit);
    if info.skipped == 0 then
      SubsequenceReflexive(posts);
      posts
    else
      HeadAndSuffixIsSubsequence(posts, info.start);
      assert posts[info.start..info.stop] == posts[info.start..];
      [posts[0]] + posts[info.start..info.stop]
  }

  /**
   Nothing is skipped exactly when the thread has at most `DefaultLimit + 1`
   posts; then all of them are shown, and for `DefaultLimit + 1` posts the
   head-plus-slice form would show the same list.
   */
  lemma LastPostsWhenNothingSkipped(posts: seq<Post>)
    ensures ThreadInfo(posts, DefaultLimit).skipped == 0 <==> |posts| <= DefaultLimit + 1
    ensures |posts| <= DefaultLimit + 1 ==> LastPosts(posts) == posts
    ensures |posts| == DefaultLimit + 1 ==>
      var info := ThreadInfo(posts, DefaultLimit);
      info.Truncated? && LastPosts(posts) == [posts[0]] + posts[info.start..info.stop]
  {
    if |posts| == DefaultLimit + 1 {
      assert posts == [posts[0]] + posts[1..];
    }
  }

  /**
   When posts are skipped, the thread is the shown opening post, then the
   `skipped` hidden posts, then the shown trailing posts.
   */
  lemma LastPostsHidesTheMiddle(posts: seq<Post>)
    requires |posts| > DefaultLimit + 1
    ensures var r, info := LastPosts(posts), ThreadInfo(posts, DefaultLimit);
      && info.Truncated?
      && |posts[1..info.start]| == info.skipped
      && posts == [r[0]] + posts[1..info.start] + r[1..]
  {
    var r, info := LastPosts(posts), ThreadInfo(posts, DefaultLimit);
    assert r[1..] == posts[info.start..];
    assert posts == [posts[0]] + posts[1..info.start] + posts[info.start..];
  }

  /**
   The window over a thread's posts holds only that thread's posts, keeps
   their pid order and starts with the thread's opening post.
   */
  lemma LastPostsOfThread(store: Store, thread: Thread)
    ensures var r := LastPosts(Posts(store, thread));
      && Sorted(r, PidOrder)
      && (forall p | p in r :: p in store.posts && p.thread == Some(thread.id))
      && (r != [] ==> OpPost(store, thread) == Some(r[0]))
  {
    var posts := Posts(store, thread);
    var r := LastPosts(posts);
    SubsequenceSorted(r, posts, PidOrder);
    SubsequenceMembers(r, posts);
  }

  /** The worked example of a twelve-post thread: posts 2 to 7 are hidden. */
  lemma TwelvePostThread(posts: seq<Post>)
    requires |posts| == 12
    ensures ThreadInfo(posts, DefaultLimit) == Truncated(12, 7, 12, 6)
    ensures LastPosts(posts) == [posts[0]] + posts[7..12]
  {
  }
}
