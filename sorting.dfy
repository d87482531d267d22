/**
 * The display order of the blog list: `[...blogs].sort((a, b) => b.likes - a.likes)`.
 * The comparator orders by likes, descending; `Array.prototype.sort` is
 * stable, so blogs with equal likes keep their order in `blogs`. The copy
 * is a value here, so sorting it cannot touch `blogs`.
 */
module Sorting {
  import opened Blogs

  /** Consecutive entries have non-increasing likes. */
  predicate SortedByLikes(s: seq<Blog>) {
    forall i :: 0 <= i < |s| - 1 ==> s[i].likes >= s[i + 1].likes
  }

  /** The entries with exactly `k` likes, in the order in which `s` holds them. */
  function WithLikes(s: seq<Blog>, k: int): seq<Blog> {
    if s == [] then []
    else (if s[0].likes == k then [s[0]] else []) + WithLikes(s[1..], k)
  }

  /**
   * Puts `x` before the first entry that has no more likes than `x`: the
   * place a stable sort gives an entry that came before all of `s`.
   */
  function Insert(x: Blog, s: seq<Blog>): (r: seq<Blog>)
    ensures multiset(r) == multiset(s) + multiset{x}
    ensures SortedByLikes(s) ==> SortedByLikes(r)
    ensures forall k :: WithLikes(r, k) == (if x.likes == k then [x] else []) + WithLikes(s, k)
  {
    if s == [] || s[0].likes <= x.likes then
      WithLikesCons(x, s);
      [x] + s
    else
      var rest := Insert(x, s[1..]);
      assert s == [s[0]] + s[1..];
      WithLikesShift(x, s[0], s[1..], rest);
      assert SortedByLikes(s) ==> SortedByLikes([s[0]] + rest) by {
        if SortedByLikes(s) {
          SortedTail(s);
          SortedCons(s[0], rest);
        }
      }
      [s[0]] + rest
  }

  lemma WithLikesCons(x: Blog, t: seq<Blog>)
    ensures forall k :: WithLikes([x] + t, k) == (if x.likes == k then [x] else []) + WithLikes(t, k)
  {
    assert ([x] + t)[1..] == t;
  }

  /** Putting `y` in front commutes with having inserted `x` of different likes. */
  lemma WithLikesShift(x: Blog, y: Blog, t: seq<Blog>, u: seq<Blog>)
    requires y.likes != x.likes
    requires forall k :: WithLikes(u, k) == (if x.likes == k then [x] else []) + WithLikes(t, k)
    ensures forall k :: WithLikes([y] + u, k) == (if x.likes == k then [x] else []) + WithLikes([y] + t, k)
  {
    WithLikesCons(y, u);
    WithLikesCons(y, t);
  }

  lemma SortedCons(y: Blog, u: seq<Blog>)
    requires SortedByLikes(u) && (u == [] || y.likes >= u[0].likes)
    ensures SortedByLikes([y] + u)
  {
    forall i | 0 <= i < |[y] + u| - 1 ensures ([y] + u)[i].likes >= ([y] + u)[i + 1].likes {
      if i > 0 {
        assert ([y] + u)[i] == u[i - 1] && ([y] + u)[i + 1] == u[i];
      }
    }
  }

  lemma SortedTail(s: seq<Blog>)
    requires s != [] && SortedByLikes(s)
    ensures SortedByLikes(s[1..])
  {
    forall i | 0 <= i < |s[1..]| - 1 ensures s[1..][i].likes >= s[1..][i + 1].likes {
      assert s[1..][i] == s[i + 1] && s[1..][i + 1] == s[i + 2];
    }
  }

  /**
   * The list `blogsSorted` that the logged-in view shows: a permutation of
   * `s` in non-increasing order of likes in which the entries with equal
   * likes keep their relative order from `s`.
   */
  function SortByLikes(s: seq<Blog>): (r: seq<Blog>)
    ensures multiset(r) == multiset(s)
    ensures |r| == |s|
    ensures SortedByLikes(r)
    ensures forall k :: WithLikes(r, k) == WithLikes(s, k)
  {
    if s == [] then []
    else
      assert s == [s[0]] + s[1..];
      var r := Insert(s[0], SortByLikes(s[1..]));
      assert |r| == |multiset(r)|;
      r
  }

  /** In a sorted list no later entry has more likes than an earlier one. */
  lemma {:induction false} SortedPairwise(s: seq<Blog>, i: nat, j: nat)
    requires SortedByLikes(s) && i <= j < |s|
    ensures s[i].likes >= s[j].likes
    decreases j - i
  {
    if i < j {
      SortedPairwise(s, i + 1, j);
    }
  }

  /** An entry of `s` with `k` likes makes the `k`-likes part of `s` non-empty. */
  lemma {:induction false} WithLikesHas(s: seq<Blog>, i: nat)
    requires i < |s|
    ensures WithLikes(s, s[i].likes) != []
  {
    if i > 0 {
      assert s[1..][i - 1] == s[i];
      WithLikesHas(s[1..], i - 1);
    }
  }

  /** An empty list is the only one whose every like-class is empty. */
  lemma WithLikesEmpty(s: seq<Blog>)
    requires forall k :: WithLikes(s, k) == []
    ensures s == []
  {
    if s != [] {
      WithLikesHas(s, 0);
    }
  }

  /**
   * Two lists sorted by likes that agree on the order of the entries of
   * every like count are the same list.
   */
  lemma {:induction false} SortedUnique(a: seq<Blog>, b: seq<Blog>)
    requires SortedByLikes(a) && SortedByLikes(b)
    requires forall k :: WithLikes(a, k) == WithLikes(b, k)
    ensures a == b
    decreases |a|
  {
    if a == [] {
      WithLikesEmpty(b);
    } else if b == [] {
      WithLikesEmpty(a);
    } else {
      assert a[0] == b[0] by { HeadsAgree(a, b); HeadsAgree(b, a); }
      var m := a[0].likes;
      forall k ensures WithLikes(a[1..], k) == WithLikes(b[1..], k) {
        var c := if m == k then [a[0]] else [];
        assert WithLikes(a, k) == c + WithLikes(a[1..], k);
        assert WithLikes(b, k) == c + WithLikes(b[1..], k);
        assert WithLikes(a[1..], k) == WithLikes(a, k)[|c|..];
        assert WithLikes(b[1..], k) == WithLikes(b, k)[|c|..];
      }
      SortedTail(a);
      SortedTail(b);
      SortedUnique(a[1..], b[1..]);
      assert a == [a[0]] + a[1..] && b == [b[0]] + b[1..];
    }
  }

  /** The head of `a` has at most the likes of the head of `b`, and is that head when they tie. */
  lemma HeadsAgree(a: seq<Blog>, b: seq<Blog>)
    requires a != [] && b != [] && SortedByLikes(b)
    requires forall k :: WithLikes(a, k) == WithLikes(b, k)
    ensures a[0].likes <= b[0].likes
    ensures a[0].likes == b[0].likes ==> a[0] == b[0]
  {
    var m := a[0].likes;
    assert WithLikes(a, m)[0] == a[0];
    var wb := WithLikes(b, m);
    assert wb != [];
    var j := FirstWithLikes(b, m);
    SortedPairwise(b, 0, j);
    if m == b[0].likes {
      assert wb[0] == b[0];
    }
  }

  /** The position of the first entry of `s` with `k` likes. */
  lemma {:induction false} FirstWithLikes(s: seq<Blog>, k: int) returns (j: nat)
    requires WithLikes(s, k) != []
    ensures j < |s| && s[j].likes == k && s[j] == WithLikes(s, k)[0]
  {
    if s[0].likes == k {
      j := 0;
    } else {
      var j' := FirstWithLikes(s[1..], k);
      j := j' + 1;
    }
  }

  /**
   * `SortByLikes` is the one display order: any list sorted by likes that
   * keeps ties in input order is it.
   */
  lemma StableSortIsUnique(s: seq<Blog>, r: seq<Blog>)
    requires SortedByLikes(r)
    requires forall k :: WithLikes(r, k) == WithLikes(s, k)
    ensures r == SortByLikes(s)
  {
    SortedUnique(r, SortByLikes(s));
  }

  /** A list already in display order is shown as it is. */
  lemma SortSorted(s: seq<Blog>)
    requires SortedByLikes(s)
    ensures SortByLikes(s) == s
  {
    SortedUnique(s, SortByLikes(s));
  }

  /** Of two blogs, the one with more likes is shown first, whatever their list order. */
  lemma TwoByLikes(x: Blog, y: Blog)
    requires x.likes < y.likes
    ensures SortByLikes([x, y]) == [y, x]
    ensures SortByLikes([y, x]) == [y, x]
  {
    assert [x, y][1..] == [y] && [y, x][1..] == [x];
    assert [y][1..] == [] && [x][1..] == [];
    assert Insert(x, [y]) == [y] + Insert(x, []);
  }
}
