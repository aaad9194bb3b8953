/**
 * The `posts` table behind `PostRepository` (lab5): rows keyed by an
 * automatically assigned integer id, each holding a user id, a title and a
 * body. The table lives in an in-memory database that is created empty when
 * the application starts, so a repository starts from an empty table.
 *
 * The SELECT that lists posts has no ORDER BY; this model lists rows in
 * ascending id order, the order in which SQLite scans a rowid table.
 */
module PostStore {
  import opened Wrappers

  /** SQLite stores an INTEGER in 64 bits, and Python's `sqlite3` driver
      refuses to bind an `int` outside that range (`OverflowError`). */
  const MinInt64 := -0x8000_0000_0000_0000
  const MaxInt64 := 0x7FFF_FFFF_FFFF_FFFF

  predicate FitsInt64(n: int)
  {
    MinInt64 <= n <= MaxInt64
  }

  /** `PostAddSchema`: a post before the table has given it an id. */
  datatype PostAdd = PostAdd(userId: int, title: string, body: string)

  /** `PostSchema`: a stored post, with its id. */
  datatype Post = Post(id: int, userId: int, title: string, body: string)

  /** The stored row for `p` once the table has given it `id`. */
  function WithId(p: PostAdd, id: int): Post
  {
    Post(id, p.userId, p.title, p.body)
  }

  /** The rows of `table` whose ids lie in `[lo, hi)`, in ascending id order. */
  function Rows(table: map<int, Post>, lo: int, hi: int): seq<Post>
    decreases hi - lo
  {
    if lo >= hi then []
    else if lo in table then [table[lo]] + Rows(table, lo + 1, hi)
    else Rows(table, lo + 1, hi)
  }

  /** What the listing of `[lo, hi)` holds, when every row is stored under
      its own id: only stored rows of that range, every one of them, in
      strictly ascending id order. */
  lemma RowsListing(table: map<int, Post>, lo: int, hi: int)
    requires forall id :: id in table ==> table[id].id == id
    ensures forall i :: 0 <= i < |Rows(table, lo, hi)| ==> lo <= Rows(table, lo, hi)[i].id < hi
    ensures forall i :: 0 <= i < |Rows(table, lo, hi)| ==>
      Rows(table, lo, hi)[i].id in table && table[Rows(table, lo, hi)[i].id] == Rows(table, lo, hi)[i]
    ensures forall id :: lo <= id < hi && id in table ==> table[id] in Rows(table, lo, hi)
    ensures forall i, j :: 0 <= i < j < |Rows(table, lo, hi)| ==> Rows(table, lo, hi)[i].id < Rows(table, lo, hi)[j].id
  {
    RowsSound(table, lo, hi);
    RowsComplete(table, lo, hi);
    RowsSorted(table, lo, hi);
  }

  /** Every listed row is stored, under an id of the range. */
  lemma {:induction false} RowsSound(table: map<int, Post>, lo: int, hi: int)
    requires forall id :: id in table ==> table[id].id == id
    ensures forall i :: 0 <= i < |Rows(table, lo, hi)| ==> lo <= Rows(table, lo, hi)[i].id < hi
    ensures forall i :: 0 <= i < |Rows(table, lo, hi)| ==>
      Rows(table, lo, hi)[i].id in table && table[Rows(table, lo, hi)[i].id] == Rows(table, lo, hi)[i]
    decreases hi - lo
  {
    if lo < hi {
      RowsSound(table, lo + 1, hi);
      var rest := Rows(table, lo + 1, hi);
      if lo in table {
        var r := [table[lo]] + rest;
        assert Rows(table, lo, hi) == r;
        forall i | 1 <= i < |r| ensures r[i] == rest[i - 1] {
        }
      }
    }
  }

  /** Every row stored under an id of the range is listed. */
  lemma {:induction false} RowsComplete(table: map<int, Post>, lo: int, hi: int)
    ensures forall id :: lo <= id < hi && id in table ==> table[id] in Rows(table, lo, hi)
    decreases hi - lo
  {
    if lo < hi {
      RowsComplete(table, lo + 1, hi);
    }
  }

  /** The listing is in strictly ascending id order. */
  lemma {:induction false} RowsSorted(table: map<int, Post>, lo: int, hi: int)
    requires forall id :: id in table ==> table[id].id == id
    ensures forall i, j :: 0 <= i < j < |Rows(table, lo, hi)| ==> Rows(table, lo, hi)[i].id < Rows(table, lo, hi)[j].id
    decreases hi - lo
  {
    if lo < hi {
      RowsSorted(table, lo + 1, hi);
      RowsSound(table, lo + 1, hi);
      var rest := Rows(table, lo + 1, hi);
      if lo in table {
        var r := [table[lo]] + rest;
        assert Rows(table, lo, hi) == r;
        forall i | 1 <= i < |r| ensures r[i] == rest[i - 1] && lo < r[i].id {
        }
      }
    }
  }

  /** Extending the id range by one id that holds a row appends that row. */
  lemma {:induction false} RowsExtend(table: map<int, Post>, lo: int, hi: int)
    requires lo <= hi && hi in table
    ensures Rows(table, lo, hi + 1) == Rows(table, lo, hi) + [table[hi]]
    decreases hi - lo
  {
    if lo < hi {
      RowsExtend(table, lo + 1, hi);
    }
  }

  /** Rows outside `[lo, hi)` do not matter to the listing of that range. */
  lemma {:induction false} RowsFrame(t: map<int, Post>, u: map<int, Post>, lo: int, hi: int)
    requires forall id :: lo <= id < hi ==> (id in t <==> id in u)
    requires forall id :: lo <= id < hi && id in t ==> t[id] == u[id]
    ensures Rows(t, lo, hi) == Rows(u, lo, hi)
    decreases hi - lo
  {
    if lo < hi {
      RowsFrame(t, u, lo + 1, hi);
    }
  }

  /** The rows stored for `batch` under consecutive ids from `first`. */
  function Numbered(batch: seq<PostAdd>, first: int): (r: seq<Post>)
    ensures |r| == |batch|
    ensures forall i :: 0 <= i < |r| ==> r[i] == WithId(batch[i], first + i)
  {
    seq(|batch|, i requires 0 <= i < |batch| => WithId(batch[i], first + i))
  }

  /** Rows stored under consecutive ids right after `[lo, mid)`, in order,
      are listed after the rows of that range. */
  lemma {:induction false} RowsRun(t: map<int, Post>, u: map<int, Post>, lo: int, mid: int, r: seq<Post>)
    requires lo <= mid
    requires forall id :: lo <= id < mid ==> (id in t <==> id in u)
    requires forall id :: lo <= id < mid && id in t ==> t[id] == u[id]
    requires forall id :: mid <= id < mid + |r| ==> id in u && u[id] == r[id - mid]
    ensures Rows(u, lo, mid + |r|) == Rows(t, lo, mid) + r
    decreases |r|
  {
    if r == [] {
      RowsFrame(t, u, lo, mid);
    } else {
      var n := |r| - 1;
      var front := r[..n];
      assert mid + n in u && u[mid + n] == r[n];
      forall id | mid <= id < mid + n ensures id in u && u[id] == front[id - mid] {
      }
      RowsRun(t, u, lo, mid, front);
      RowsExtend(u, lo, mid + n);
      assert r == front + [r[n]];
    }
  }

  /** `add_all`: each row of `r` stored under its own id, in order. */
  function StoreAll(table: map<int, Post>, r: seq<Post>): map<int, Post>
    decreases |r|
  {
    if r == [] then table else StoreAll(table[r[0].id := r[0]], r[1..])
  }

  /** Storing rows numbered from `first` adds their ids to the keys, stores
      each under its id, and changes no other row. */
  lemma {:induction false} StoreAllNumbered(table: map<int, Post>, r: seq<Post>, first: int)
    requires forall i :: 0 <= i < |r| ==> r[i].id == first + i
    ensures forall id :: id in StoreAll(table, r) <==> id in table || first <= id < first + |r|
    ensures forall id :: first <= id < first + |r| ==> StoreAll(table, r)[id] == r[id - first]
    ensures forall id :: id in table && !(first <= id < first + |r|) ==> StoreAll(table, r)[id] == table[id]
    decreases |r|
  {
    if r != [] {
      var next := table[first := r[0]];
      var tail := r[1..];
      forall i | 0 <= i < |tail| ensures tail[i].id == first + 1 + i {
        assert tail[i] == r[i + 1];
      }
      StoreAllNumbered(next, tail, first + 1);
      assert StoreAll(table, r) == StoreAll(next, tail);
      forall id | first + 1 <= id < first + |r| ensures StoreAll(table, r)[id] == r[id - first] {
        assert tail[id - (first + 1)] == r[id - first];
      }
    }
  }

  /** A row is listed exactly when it is stored under its own id inside the range. */
  lemma RowsMembership(table: map<int, Post>, lo: int, hi: int, p: Post)
    requires forall id :: id in table ==> table[id].id == id
    ensures p in Rows(table, lo, hi) <==> lo <= p.id < hi && p.id in table && table[p.id] == p
  {
    RowsListing(table, lo, hi);
  }

  /** SQL `OFFSET skip`: a negative offset counts as zero. */
  function Offset(rows: seq<Post>, skip: int): (r: seq<Post>)
    ensures skip <= 0 ==> r == rows
    ensures 0 <= skip <= |rows| ==> r == rows[skip..]
    ensures skip >= |rows| ==> r == []
  {
    if skip <= 0 then rows else if skip >= |rows| then [] else rows[skip..]
  }

  /** SQL `LIMIT limit`: a negative limit means no limit. */
  function Limit(rows: seq<Post>, limit: int): (r: seq<Post>)
    ensures limit < 0 ==> r == rows
    ensures 0 <= limit <= |rows| ==> r == rows[..limit]
    ensures limit >= |rows| ==> r == rows
  {
    if limit < 0 || limit >= |rows| then rows else rows[..limit]
  }

  /** One page of a listing: the rows from position `skip` on, at most `limit` of them. */
  function Page(rows: seq<Post>, skip: int, limit: int): seq<Post>
  {
    Limit(Offset(rows, skip), limit)
  }

  /** A page is a contiguous run of the listing starting at `skip` (or at 0
      for a negative skip), no longer than a non-negative limit, and as long
      as the rows left allow. */
  lemma PageIsSlice(rows: seq<Post>, skip: int, limit: int)
    ensures var start := if skip <= 0 then 0 else if skip >= |rows| then |rows| else skip;
      var r := Page(rows, skip, limit);
      && start + |r| <= |rows|
      && r == rows[start..start + |r|]
      && (limit >= 0 ==> |r| == if limit <= |rows| - start then limit else |rows| - start)
      && (limit < 0 ==> |r| == |rows| - start)
  {
  }

  /** `PostRepository`: the table as a map from id to row, together with the
      next id the table will hand out. */
  class PostRepository {
    var posts: map<int, Post>
    var nextId: int

    /** Every stored row carries its own key, and every key is below the next id. */
    ghost predicate Valid()
      reads this
    {
      && 1 <= nextId
      && forall id :: id in posts ==> 1 <= id < nextId && posts[id].id == id
    }

    /** Every stored row, in ascending id order. */
    function All(): seq<Post>
      reads this
      requires Valid()
    {
      Rows(posts, 1, nextId)
    }

    /** The table is created empty at start-up. */
    constructor ()
      ensures Valid() && posts == map[] && nextId == 1
    {
      posts := map[];
      nextId := 1;
    }

    /** `add_one`: stores `post` under a fresh id and returns the stored row.
        The listing gains exactly that row, at its end. A user id outside 64
        bits makes the flush raise: nothing is committed, and the exception
        handler returns `None`. */
    method AddOne(post: PostAdd) returns (r: Option<Post>)
      requires Valid()
      modifies this
      ensures Valid()
      ensures r.None? <==> !FitsInt64(post.userId)
      ensures r.None? ==> posts == old(posts) && nextId == old(nextId)
      ensures r.Some? ==> r.value.userId == post.userId && r.value.title == post.title && r.value.body == post.body
      ensures r.Some? ==> r.value.id !in old(posts) && r.value.id == old(nextId) && nextId == old(nextId) + 1
      ensures r.Some? ==> posts == old(posts)[r.value.id := r.value]
      ensures r.Some? ==> All() == old(All()) + [r.value]
    {
      if !FitsInt64(post.userId) {
        return None;
      }
      ghost var before := posts;
      var row := WithId(post, nextId);
      posts := posts[nextId := row];
      nextId := nextId + 1;
      RowsFrame(before, posts, 1, nextId - 1);
      RowsExtend(posts, 1, nextId - 1);
      r := Some(row);
    }

    /** `add_many`: stores every post of `batch` under fresh ids, handed
        out in input order, and returns the stored rows in that order. Rows
        stored before are unchanged. One user id outside 64 bits makes the
        flush raise: the whole batch is rolled back and the exception
        handler returns `None`. */
    method AddMany(batch: seq<PostAdd>) returns (r: Option<seq<Post>>)
      requires Valid()
      modifies this
      ensures Valid()
      ensures r.None? <==> exists i :: 0 <= i < |batch| && !FitsInt64(batch[i].userId)
      ensures r.None? ==> posts == old(posts) && nextId == old(nextId)
      ensures r.Some? ==> |r.value| == |batch| && nextId == old(nextId) + |batch|
      ensures r.Some? ==> forall i :: 0 <= i < |r.value| ==> r.value[i] == WithId(batch[i], old(nextId) + i)
      ensures r.Some? ==> forall i :: 0 <= i < |r.value| ==> r.value[i].id !in old(posts)
      ensures r.Some? ==> forall i :: 0 <= i < |r.value| ==> r.value[i].id in posts && posts[r.value[i].id] == r.value[i]
      ensures r.Some? ==> forall i, j :: 0 <= i < j < |r.value| ==> r.value[i].id < r.value[j].id
      ensures r.Some? ==> forall id :: id in posts <==> id in old(posts) || old(nextId) <= id < nextId
      ensures r.Some? ==> forall id :: id in old(posts) ==> posts[id] == old(posts)[id]
      ensures r.Some? ==> All() == old(All()) + r.value
    {
      if exists i :: 0 <= i < |batch| && !FitsInt64(batch[i].userId) {
        return None;
      }
      ghost var before, listed := posts, All();
      var first := nextId;
      var rows := Numbered(batch, first);
      posts := StoreAll(posts, rows);
      nextId := first + |batch|;
      StoreAllNumbered(before, rows, first);
      assert Valid();
      RowsRun(before, posts, 1, first, rows);
      assert All() == listed + rows;
      r := Some(rows);
    }

    /** `find_all(skip, limit)`: reads the table and changes nothing. The four
        branches of the query all give the page of the listing from `skip`
        with at most `limit` rows; the defaults give every stored row. A
        `skip` or `limit` outside 64 bits cannot be bound to the query, and
        the exception handler returns `None`. */
    method FindAll(skip: int := 0, limit: int := -1) returns (r: Option<seq<Post>>)
      requires Valid()
      ensures r.None? <==> !FitsInt64(skip) || !FitsInt64(limit)
      ensures r.Some? ==> r.value == Page(All(), skip, limit)
      ensures skip == 0 && limit == -1 ==> r == Some(All())
      ensures r.Some? && limit >= 0 ==> |r.value| <= limit
      ensures r.Some? ==> forall i :: 0 <= i < |r.value| ==> r.value[i].id in posts && posts[r.value[i].id] == r.value[i]
      ensures r.Some? ==> forall i, j :: 0 <= i < j < |r.value| ==> r.value[i].id < r.value[j].id
    {
      if !FitsInt64(skip) || !FitsInt64(limit) {
        return None;
      }
      var all := Rows(posts, 1, nextId);
      var page;
      if limit == -1 && skip == 0 {
        page := all;
      } else if limit == -1 {
        page := Offset(all, skip);
      } else if skip == 0 {
        page := Limit(all, limit);
      } else {
        page := Limit(Offset(all, skip), limit);
      }
      PageIsSlice(all, skip, limit);
      RowsListing(posts, 1, nextId);
      r := Some(page);
    }

    /** `find_one(id)`: the stored row with that id, or `None` if there is
        none. An id outside 64 bits makes the lookup raise, and the exception
        handler returns `None` too. */
    method FindOne(id: int) returns (r: Option<Post>)
      requires Valid()
      ensures r.None? <==> id !in posts || !FitsInt64(id)
      ensures r.Some? ==> r.value == posts[id] && r.value.id == id
    {
      if FitsInt64(id) && id in posts {
        r := Some(posts[id]);
      } else {
        r := None;
      }
    }

    /** `update_one(post)`: when a row has `post.id`, replaces its user id,
        title and body and returns the updated row; otherwise returns `None`.
        An id or a new user id outside 64 bits makes the lookup or the flush
        raise: nothing is committed and the exception handler returns `None`.
        No other row changes, and the id counter is untouched. */
    method UpdateOne(post: Post) returns (r: Option<Post>)
      requires Valid()
      modifies this
      ensures Valid() && nextId == old(nextId)
      ensures r.None? <==> post.id !in old(posts) || !FitsInt64(post.id) || !FitsInt64(post.userId)
      ensures r.None? ==> posts == old(posts)
      ensures r.Some? ==> r == Some(post) && posts == old(posts)[post.id := post]
      ensures forall id :: id in old(posts) && id != post.id ==> id in posts && posts[id] == old(posts)[id]
      ensures posts.Keys == old(posts).Keys
    {
      if !FitsInt64(post.id) || post.id !in posts || !FitsInt64(post.userId) {
        return None;
      }
      var row := posts[post.id];
      row := row.(userId := post.userId, title := post.title, body := post.body);
      posts := posts[post.id := row];
      r := Some(row);
    }

    /** `delete_one(id)`: removes the row with that id and answers whether
        there was one. No other row changes. */
    method DeleteOne(id: int) returns (deleted: Option<bool>)
      requires Valid()
      modifies this
      ensures Valid() && nextId == old(nextId)
      ensures deleted.None? <==> !FitsInt64(id)
      ensures deleted.None? ==> posts == old(posts)
      ensures deleted.Some? ==> (deleted.value <==> id in old(posts))
      ensures deleted.Some? ==> posts == old(posts) - {id}
      ensures deleted.Some? ==> forall p :: p in All() <==> p in old(All()) && p.id != id
    {
      if !FitsInt64(id) {
        return None;
      }
      ghost var before := posts;
      deleted := Some(id in posts);
      posts := posts - {id};
      forall p ensures p in All() <==> p in Rows(before, 1, nextId) && p.id != id {
        RowsMembership(before, 1, nextId, p);
        RowsMembership(posts, 1, nextId, p);
      }
    }
  }

  /** Three posts added to an empty table are listed back in order, and a
      page of one row from position 1 holds the second of them. */
  method ListScenario()
  {
    var repo := new PostRepository();
    assert repo.All() == [];
    var a := repo.AddOne(PostAdd(1, "a", "x"));
    var b := repo.AddOne(PostAdd(2, "b", "y"));
    var c := repo.AddOne(PostAdd(3, "c", "z"));
    assert a.Some? && b.Some? && c.Some?;
    assert repo.All() == [a.value, b.value, c.value];
    var all := repo.FindAll();
    assert all == Some([a.value, b.value, c.value]);
    var page := repo.FindAll(1, 1);
    ghost var listed := [a.value, b.value, c.value];
    assert page.Some? && page.value == Page(listed, 1, 1);
    assert Offset(listed, 1) == [b.value, c.value];
    assert Limit([b.value, c.value], 1) == [b.value];
    assert page == Some([b.value]);
  }

  /** Deleting a stored post makes it unfindable; deleting it again answers false. */
  method DeleteScenario()
  {
    var repo := new PostRepository();
    var a := repo.AddOne(PostAdd(1, "a", "x"));
    var b := repo.AddOne(PostAdd(2, "b", "y"));
    assert a.Some? && b.Some?;
    var gone := repo.DeleteOne(a.value.id);
    assert gone == Some(true);
    var found := repo.FindOne(a.value.id);
    assert found == None;
    var kept := repo.FindOne(b.value.id);
    assert kept == b;
    var again := repo.DeleteOne(a.value.id);
    assert again == Some(false);
    var refused := repo.AddOne(PostAdd(MaxInt64 + 1, "c", "z"));
    assert refused == None;
  }
}
