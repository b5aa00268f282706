/** The order every post list the client holds is kept in: `list.sort((a, b) => b.likes - a.likes)`.
    `Array.prototype.sort` is stable, so the result is the unique rearrangement that is
    descending by likes and keeps posts with equal likes in the order they came in. */
module Ordering {
  import opened Blogs

  /** The comparator: positive when `a` belongs after `b`, zero when they tie. */
  function ByLikes(a: Post, b: Post): (d: int)
    ensures d > 0 <==> a.likes < b.likes
    ensures d == 0 <==> a.likes == b.likes
  {
    b.likes - a.likes
  }

  /** Descending by likes. */
  ghost predicate SortedDesc(s: seq<Post>)
  {
    forall i, j :: 0 <= i < j < |s| ==> s[i].likes >= s[j].likes
  }

  /** The posts of `s` that have exactly `k` likes, in the order of `s`. */
  function WithLikes(s: seq<Post>, k: nat): seq<Post>
  {
    if s == [] then []
    else if s[0].likes == k then [s[0]] + WithLikes(s[1..], k)
    else WithLikes(s[1..], k)
  }

  /** `r` keeps every group of equal-likes posts of `s` in the order `s` has them. */
  ghost predicate Stable(r: seq<Post>, s: seq<Post>)
  {
    forall k: nat :: WithLikes(r, k) == WithLikes(s, k)
  }

  /** One step of a stable sort: `x`, which came after every post of `t`, goes after
      every post the comparator does not place after it. */
  function Insert(t: seq<Post>, x: Post): (r: seq<Post>)
    ensures |r| == |t| + 1
  {
    if t == [] then [x]
    else if ByLikes(t[0], x) > 0 then [x] + t
    else [t[0]] + Insert(t[1..], x)
  }

  /** The array `sort` leaves behind, as a stable insertion of each post in turn. */
  function SortByLikes(s: seq<Post>): (r: seq<Post>)
    ensures |r| == |s|
  {
    if s == [] then []
    else Insert(SortByLikes(s[..|s| - 1]), s[|s| - 1])
  }

  /** Inserting adds the one post and loses none. */
  lemma {:induction false} InsertPermutes(t: seq<Post>, x: Post)
    ensures multiset(Insert(t, x)) == multiset(t) + multiset{x}
  {
    if t != [] && ByLikes(t[0], x) <= 0 {
      InsertPermutes(t[1..], x);
      assert t == [t[0]] + t[1..];
    }
  }

  /** The sorted list is a permutation of the fetched one. */
  lemma {:induction false} SortByLikesPermutes(s: seq<Post>)
    ensures multiset(SortByLikes(s)) == multiset(s)
  {
    if s != [] {
      var init, last := s[..|s| - 1], s[|s| - 1];
      SortByLikesPermutes(init);
      InsertPermutes(SortByLikes(init), last);
      assert s == init + [last];
    }
  }

  lemma SortedCons(a: Post, rest: seq<Post>)
    requires SortedDesc(rest)
    requires forall y :: y in rest ==> a.likes >= y.likes
    ensures SortedDesc([a] + rest)
  {
  }

  /** Where `Insert` puts the new post: after the leading posts the comparator keeps before it. */
  function InsertIndex(t: seq<Post>, x: Post): (i: nat)
    ensures i <= |t|
  {
    if t == [] || ByLikes(t[0], x) > 0 then 0
    else 1 + InsertIndex(t[1..], x)
  }

  lemma {:induction false} InsertSplit(t: seq<Post>, x: Post)
    ensures Insert(t, x) == t[..InsertIndex(t, x)] + [x] + t[InsertIndex(t, x)..]
  {
    if t != [] && ByLikes(t[0], x) <= 0 {
      var tail := t[1..];
      var i := InsertIndex(tail, x);
      InsertSplit(tail, x);
      assert t[..i + 1] == [t[0]] + tail[..i];
      assert t[i + 1..] == tail[i..];
      assert [t[0]] + (tail[..i] + [x] + tail[i..]) == ([t[0]] + tail[..i]) + [x] + tail[i..];
    } else {
      assert t[..0] == [] && t[0..] == t;
    }
  }

  lemma {:induction false} InsertIndexBounds(t: seq<Post>, x: Post)
    ensures forall j :: 0 <= j < InsertIndex(t, x) ==> t[j].likes >= x.likes
    ensures InsertIndex(t, x) < |t| ==> t[InsertIndex(t, x)].likes < x.likes
  {
    if t != [] && ByLikes(t[0], x) <= 0 {
      InsertIndexBounds(t[1..], x);
      forall j | 1 <= j < InsertIndex(t, x) ensures t[j].likes >= x.likes {
        assert t[j] == t[1..][j - 1];
      }
    }
  }

  lemma {:induction false} InsertSorted(t: seq<Post>, x: Post)
    requires SortedDesc(t)
    ensures SortedDesc(Insert(t, x))
  {
    if t == [] {
    } else if ByLikes(t[0], x) > 0 {
      forall y | y in t ensures x.likes >= y.likes {
        var m :| 0 <= m < |t| && t[m] == y;
      }
      SortedCons(x, t);
    } else {
      var rest := Insert(t[1..], x);
      InsertPermutes(t[1..], x);
      assert SortedDesc(t[1..]) by {
        forall i, j | 0 <= i < j < |t[1..]| ensures t[1..][i].likes >= t[1..][j].likes {
          assert t[1..][i] == t[i + 1] && t[1..][j] == t[j + 1];
        }
      }
      InsertSorted(t[1..], x);
      forall y | y in rest ensures t[0].likes >= y.likes {
        assert y in multiset(rest);
        if y != x {
          assert y in multiset(t[1..]);
          var m :| 0 <= m < |t[1..]| && t[1..][m] == y;
          assert t[m + 1] == y;
        }
      }
      SortedCons(t[0], rest);
    }
  }

  /** Sorting neither adds a post nor loses one. */
  lemma SortByLikesMembers(s: seq<Post>)
    ensures forall p :: p in SortByLikes(s) <==> p in s
  {
    SortByLikesPermutes(s);
    forall p ensures p in SortByLikes(s) <==> p in s {
      assert p in SortByLikes(s) <==> p in multiset(SortByLikes(s));
    }
  }

  /** Every list `SortByLikes` produces is descending by likes. */
  lemma {:induction false} SortByLikesSorted(s: seq<Post>)
    ensures SortedDesc(SortByLikes(s))
  {
    if s != [] {
      SortByLikesSorted(s[..|s| - 1]);
      InsertSorted(SortByLikes(s[..|s| - 1]), s[|s| - 1]);
    }
  }

  lemma {:induction false} WithLikesAppend(a: seq<Post>, b: seq<Post>, k: nat)
    ensures WithLikes(a + b, k) == WithLikes(a, k) + WithLikes(b, k)
  {
    if a == [] {
      assert a + b == b;
    } else {
      assert (a + b)[0] == a[0];
      assert (a + b)[1..] == a[1..] + b;
      WithLikesAppend(a[1..], b, k);
    }
  }

  lemma {:induction false} WithLikesNone(s: seq<Post>, k: nat)
    requires forall i :: 0 <= i < |s| ==> s[i].likes != k
    ensures WithLikes(s, k) == []
  {
    if s != [] {
      WithLikesNone(s[1..], k);
    }
  }

  lemma {:induction false} WithLikesMember(s: seq<Post>, k: nat, y: Post)
    requires y in WithLikes(s, k)
    ensures y in s && y.likes == k
  {
    if s[0].likes == k && y == s[0] {
    } else {
      assert y in WithLikes(s[1..], k);
      WithLikesMember(s[1..], k, y);
      assert s == [s[0]] + s[1..];
    }
  }

  lemma {:induction false} InsertStable(t: seq<Post>, x: Post, k: nat)
    requires SortedDesc(t)
    ensures WithLikes(Insert(t, x), k) == WithLikes(t, k) + (if x.likes == k then [x] else [])
  {
    if t == [] {
    } else if ByLikes(t[0], x) > 0 {
      assert Insert(t, x) == [x] + t;
      WithLikesAppend([x], t, k);
      if x.likes == k {
        WithLikesNone(t, k);
      }
    } else {
      InsertStable(t[1..], x, k);
      assert Insert(t, x) == [t[0]] + Insert(t[1..], x);
      WithLikesAppend([t[0]], Insert(t[1..], x), k);
    }
  }

  lemma {:induction false} SortByLikesStableAt(s: seq<Post>, k: nat)
    ensures WithLikes(SortByLikes(s), k) == WithLikes(s, k)
  {
    if s != [] {
      var init, last := s[..|s| - 1], s[|s| - 1];
      assert s == init + [last];
      SortByLikesStableAt(init, k);
      SortByLikesSorted(init);
      var sorted := SortByLikes(init);
      assert SortByLikes(s) == Insert(sorted, last);
      InsertStable(sorted, last, k);
      WithLikesAppend(init, [last], k);
      assert WithLikes([last], k) == if last.likes == k then [last] else [];
    }
  }

  /** Posts with equal likes keep the order they were fetched in. */
  lemma SortByLikesStable(s: seq<Post>)
    ensures Stable(SortByLikes(s), s)
  {
    forall k: nat ensures WithLikes(SortByLikes(s), k) == WithLikes(s, k) {
      SortByLikesStableAt(s, k);
    }
  }

  lemma SortedTail(s: seq<Post>)
    requires SortedDesc(s) && s != []
    ensures SortedDesc(s[1..])
  {
  }

  lemma WithLikesTail(s: seq<Post>, k: nat)
    requires s != []
    ensures WithLikes(s[1..], k) == if s[0].likes == k then WithLikes(s, k)[1..] else WithLikes(s, k)
  {
  }

  /** A nonempty list has a nonempty group: the posts with as many likes as its head. */
  lemma WithLikesHead(s: seq<Post>)
    requires s != []
    ensures WithLikes(s, s[0].likes) != []
  {
  }

  /** In a list descending by likes, the head has the most likes. */
  lemma SortedHeadMax(s: seq<Post>, y: Post)
    requires SortedDesc(s) && y in s
    ensures s[0].likes >= y.likes
  {
  }

  /** Two lists descending by likes with the same equal-likes groups are the same list. */
  lemma {:induction false} SortedStableUnique(a: seq<Post>, b: seq<Post>)
    requires SortedDesc(a) && SortedDesc(b)
    requires forall k: nat :: WithLikes(a, k) == WithLikes(b, k)
    ensures a == b
    decreases |a| + |b|
  {
    if a == [] && b == [] {
    } else if a == [] {
      WithLikesHead(b);
    } else if b == [] {
      WithLikesHead(a);
    } else {
      var m, n := a[0].likes, b[0].likes;
      assert b[0] in WithLikes(b, n);
      WithLikesMember(a, n, b[0]);
      SortedHeadMax(a, b[0]);
      assert a[0] in WithLikes(a, m);
      WithLikesMember(b, m, a[0]);
      SortedHeadMax(b, a[0]);
      assert WithLikes(a, m)[0] == a[0] && WithLikes(b, m)[0] == b[0];
      forall k: nat ensures WithLikes(a[1..], k) == WithLikes(b[1..], k) {
        assert WithLikes(a, k) == WithLikes(b, k);
        WithLikesTail(a, k);
        WithLikesTail(b, k);
      }
      SortedTail(a);
      SortedTail(b);
      SortedStableUnique(a[1..], b[1..]);
      assert a == [a[0]] + a[1..] && b == [b[0]] + b[1..];
    }
  }

  /** `SortByLikes` is exactly the stable descending sort: it is sorted, a permutation,
      keeps ties in input order, and any list with those properties is equal to it. */
  lemma SortByLikesIsStableSort(s: seq<Post>, r: seq<Post>)
    ensures SortedDesc(SortByLikes(s)) && multiset(SortByLikes(s)) == multiset(s)
    ensures Stable(SortByLikes(s), s)
    ensures SortedDesc(r) && Stable(r, s) <==> r == SortByLikes(s)
  {
    SortByLikesSorted(s);
    SortByLikesStable(s);
    SortByLikesPermutes(s);
    if SortedDesc(r) && Stable(r, s) {
      SortedStableUnique(r, SortByLikes(s));
    }
  }

  /** Sorting a list that is already descending by likes leaves it as it is. */
  lemma SortByLikesOfSorted(s: seq<Post>)
    requires SortedDesc(s)
    ensures SortByLikes(s) == s
  {
    SortByLikesIsStableSort(s, s);
  }

  /** Sorting twice is sorting once. */
  lemma SortByLikesIdempotent(s: seq<Post>)
    ensures SortByLikes(SortByLikes(s)) == SortByLikes(s)
  {
    SortByLikesSorted(s);
    SortByLikesOfSorted(SortByLikes(s));
  }
}
