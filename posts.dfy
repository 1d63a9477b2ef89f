/** How a post is shown by name (`Post.__str__`). */
module Posts {
  import opened Records
  import opened Numerals

  const ThreadLabelPrefix: string := "Thread \U{2116} "
  const PostLabelPrefix: string := "Post \U{2116} "

  /**
   "Thread № <pid>" for an opening post, "Post № <pid>" for any other: the
   prefix tells which kind of post it is and the rest is its pid in decimal.
   */
  function Label(p: Post): (r: string)
    ensures ThreadLabelPrefix <= r <==> p.opPost
    ensures PostLabelPrefix <= r <==> !p.opPost
    ensures var n := if p.opPost then |ThreadLabelPrefix| else |PostLabelPrefix|;
      n < |r| && r[n..] == Decimal(p.pid) && ParseDigits(r[n..]) == p.pid
  {
    ParseDecimal(p.pid);
    var prefix := if p.opPost then ThreadLabelPrefix else PostLabelPrefix;
    var r := prefix + Decimal(p.pid);
    assert r[|prefix|..] == Decimal(p.pid);
    assert r[0] == prefix[0];
    assert ThreadLabelPrefix[0] != PostLabelPrefix[0];
    r
  }

  /** Two posts have the same label exactly when they agree on the flag and the pid. */
  lemma LabelsDistinguishPosts(p: Post, q: Post)
    ensures Label(p) == Label(q) <==> p.opPost == q.opPost && p.pid == q.pid
  {
    if Label(p) == Label(q) {
      assert p.opPost == q.opPost;
      var n := if p.opPost then |ThreadLabelPrefix| else |PostLabelPrefix|;
      assert Decimal(p.pid) == Label(p)[n..] == Label(q)[n..] == Decimal(q.pid);
      DecimalInjective(p.pid, q.pid);
    }
  }
}
