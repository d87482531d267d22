/**
 * The records the blog list controller keeps in memory, and the three list
 * transformations its handlers apply to the blog list: lookup by id
 * (`find`), replacement by id (`map`) and deletion by id (`filter`).
 * Records are values: the model does not share objects between lists.
 */
module Blogs {

  datatype Option<T> = None | Some(value: T)

  /** The public identity of a user, as embedded in every blog. */
  datatype Owner = Owner(username: string, name: string, id: string)

  /** A logged-in user as returned by the login service and kept in the session. */
  datatype User = User(username: string, name: string, id: string, token: string)

  datatype Blog = Blog(id: string, title: string, author: string, url: string, likes: int, user: Owner)

  /** The owner record addBlog builds from the current user. */
  function OwnerOf(u: User): Owner {
    Owner(u.username, u.name, u.id)
  }

  /** The blog with its like count raised by one. */
  function Liked(b: Blog): Blog {
    b.(likes := b.likes + 1)
  }

  predicate HasId(blogs: seq<Blog>, id: string) {
    exists i :: 0 <= i < |blogs| && blogs[i].id == id
  }

  /**
   * `blogs.find(b => b.id === id)`, as the position of the entry it returns:
   * the first entry carrying the id, or nothing when no entry does.
   */
  function FindIndex(blogs: seq<Blog>, id: string): (r: Option<nat>)
    ensures r.Some? ==> r.value < |blogs| && blogs[r.value].id == id
    ensures r.Some? ==> forall j :: 0 <= j < r.value ==> blogs[j].id != id
    ensures r.None? <==> !HasId(blogs, id)
  {
    if blogs == [] then None
    else if blogs[0].id == id then Some(0)
    else
      match FindIndex(blogs[1..], id)
      case None =>
        assert forall i :: 1 <= i < |blogs| ==> blogs[i] == blogs[1..][i - 1];
        None
      case Some(k) => Some(k + 1)
  }

  /**
   * `blogs.map(blog => blog.id !== id ? blog : updated)`: every entry with
   * the id becomes `updated`, every other entry stays where it was.
   */
  function ReplaceById(blogs: seq<Blog>, id: string, updated: Blog): (r: seq<Blog>)
    ensures |r| == |blogs|
    ensures forall i :: 0 <= i < |blogs| && blogs[i].id == id ==> r[i] == updated
    ensures forall i :: 0 <= i < |blogs| && blogs[i].id != id ==> r[i] == blogs[i]
  {
    if blogs == [] then []
    else [if blogs[0].id != id then blogs[0] else updated] + ReplaceById(blogs[1..], id, updated)
  }

  /** `blogs.filter(b => b.id !== id)`. */
  function RemoveById(blogs: seq<Blog>, id: string): (r: seq<Blog>)
    ensures |r| <= |blogs|
    ensures !HasId(r, id)
    ensures forall b :: multiset(r)[b] == if b.id == id then 0 else multiset(blogs)[b]
  {
    if blogs == [] then []
    else
      assert blogs == [blogs[0]] + blogs[1..];
      if blogs[0].id != id then [blogs[0]] + RemoveById(blogs[1..], id)
      else RemoveById(blogs[1..], id)
  }

  /** `r` is `s` with some entries dropped and the rest in their original order. */
  predicate IsSubsequence(r: seq<Blog>, s: seq<Blog>)
    decreases |s|
  {
    if r == [] then true
    else if s == [] then false
    else (r[0] == s[0] && IsSubsequence(r[1..], s[1..])) || IsSubsequence(r, s[1..])
  }

  /** Lookup after replacement finds the same position, now holding `updated`. */
  lemma {:induction false} FindAfterReplace(blogs: seq<Blog>, id: string, updated: Blog)
    requires updated.id == id
    ensures FindIndex(ReplaceById(blogs, id, updated), id) == FindIndex(blogs, id)
  {
    if blogs != [] && blogs[0].id != id {
      var r := ReplaceById(blogs, id, updated);
      assert r == [blogs[0]] + ReplaceById(blogs[1..], id, updated);
      assert r[1..] == ReplaceById(blogs[1..], id, updated);
      FindAfterReplace(blogs[1..], id, updated);
    }
  }

  /** Replacing an id that no entry carries changes nothing. */
  lemma {:induction false} ReplaceAbsent(blogs: seq<Blog>, id: string, updated: Blog)
    requires !HasId(blogs, id)
    ensures ReplaceById(blogs, id, updated) == blogs
  {
    if blogs != [] {
      assert blogs[0].id != id;
      assert !HasId(blogs[1..], id) by {
        forall i | 0 <= i < |blogs[1..]| ensures blogs[1..][i].id != id {
          assert blogs[1..][i] == blogs[i + 1];
        }
      }
      ReplaceAbsent(blogs[1..], id, updated);
    }
  }

  /** The entries the filter keeps stay in their original relative order. */
  lemma {:induction false} RemoveKeepsOrder(blogs: seq<Blog>, id: string)
    ensures IsSubsequence(RemoveById(blogs, id), blogs)
  {
    if blogs != [] {
      RemoveKeepsOrder(blogs[1..], id);
    }
  }

  /** Removing an id that no entry carries changes nothing. */
  lemma {:induction false} RemoveAbsent(blogs: seq<Blog>, id: string)
    requires !HasId(blogs, id)
    ensures RemoveById(blogs, id) == blogs
  {
    if blogs != [] {
      assert blogs[0].id != id;
      assert !HasId(blogs[1..], id) by {
        forall i | 0 <= i < |blogs[1..]| ensures blogs[1..][i].id != id {
          assert blogs[1..][i] == blogs[i + 1];
        }
      }
      RemoveAbsent(blogs[1..], id);
    }
  }

  /** Removing an id that some entry carries shortens the list. */
  lemma {:induction false} RemoveShortens(blogs: seq<Blog>, id: string)
    requires HasId(blogs, id)
    ensures |RemoveById(blogs, id)| < |blogs|
  {
    if blogs[0].id != id {
      assert HasId(blogs[1..], id) by {
        var i :| 0 <= i < |blogs| && blogs[i].id == id;
        assert blogs[1..][i - 1] == blogs[i];
      }
      RemoveShortens(blogs[1..], id);
    }
  }
}
