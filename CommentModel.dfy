/**
 * The comments table and its queries (backend/models/Comment.js): a table
 * keyed by comment id that rows are inserted into, updated in and deleted
 * from, the author join every read query performs, the view a comment is
 * formatted into, and the paged listing of a post's top-level comments with
 * their replies fetched to a bounded depth.
 */
module CommentModel {
  import opened Common

  /** A row of the comments table; its id is the key it is stored under. */
  datatype CommentRow = CommentRow(
    content: string,
    authorId: int,
    postId: int,
    parentId: Option<int>,
    likeCount: int,
    createdAt: int,
    updatedAt: int)

  /** The columns of the users table that the comment queries join. */
  datatype UserRow = UserRow(username: string, avatar: Option<string>)

  /** A comment row as the read queries return it: `c.*` with the author
      columns of a LEFT JOIN on users, which are null when the author has no
      user row (`u.id as author_id` then hides the stored author id). */
  datatype JoinedRow = JoinedRow(
    id: int,
    comment: CommentRow,
    authorId: Option<int>,
    authorUsername: Option<string>,
    authorAvatar: Option<string>)

  datatype Author = Author(id: Option<int>, username: Option<string>, avatar: Option<string>)

  /** The object formatComment builds. */
  datatype FormattedComment = FormattedComment(
    id: int,
    content: string,
    author: Author,
    postId: int,
    parentId: Option<int>,
    likeCount: int,
    createdAt: int,
    updatedAt: int)

  /** A formatted comment with the replies fetched beneath it. */
  datatype CommentView = CommentView(comment: FormattedComment, replies: seq<CommentView>)

  /** The join of one comment row with its author's user row. */
  function JoinAuthor(id: int, row: CommentRow, users: map<int, UserRow>): (j: JoinedRow)
    ensures j.id == id && j.comment == row
    ensures j.authorId.Some? <==> row.authorId in users
    ensures j.authorId.Some? ==>
      && j.authorId.value == row.authorId
      && j.authorUsername == Some(users[row.authorId].username)
      && j.authorAvatar == users[row.authorId].avatar
    ensures j.authorId.None? ==> j.authorUsername.None? && j.authorAvatar.None?
  {
    if row.authorId in users then
      JoinedRow(id, row, Some(row.authorId), Some(users[row.authorId].username), users[row.authorId].avatar)
    else
      JoinedRow(id, row, None, None, None)
  }

  /** findById: the joined row, or None for a missing id. */
  function FindById(rows: map<int, CommentRow>, users: map<int, UserRow>, id: int): (r: Option<JoinedRow>)
    ensures r.None? <==> id !in rows
    ensures r.Some? ==> r.value == JoinAuthor(id, rows[id], users)
  {
    if id in rows then Some(JoinAuthor(id, rows[id], users)) else None
  }

  /** formatComment: every field of the view is the matching column of the
      joined row, the author fields come from the join. */
  function FormatComment(j: JoinedRow): (f: FormattedComment)
    ensures f.id == j.id && f.content == j.comment.content
    ensures f.author == Author(j.authorId, j.authorUsername, j.authorAvatar)
    ensures f.postId == j.comment.postId && f.parentId == j.comment.parentId
    ensures f.likeCount == j.comment.likeCount
    ensures f.createdAt == j.comment.createdAt && f.updatedAt == j.comment.updatedAt
  {
    FormattedComment(j.id, j.comment.content, Author(j.authorId, j.authorUsername, j.authorAvatar),
                     j.comment.postId, j.comment.parentId, j.comment.likeCount,
                     j.comment.createdAt, j.comment.updatedAt)
  }

  /** `ORDER BY created_at ASC`, with ties taken in id order. */
  predicate NotLater(rows: map<int, CommentRow>, a: int, b: int)
    requires a in rows && b in rows
  {
    rows[a].createdAt < rows[b].createdAt || (rows[a].createdAt == rows[b].createdAt && a <= b)
  }

  /** Some element of a non-empty set. */
  ghost function Pick(s: set<int>): (x: int)
    requires s != {}
    ensures x in s
  {
    NonEmptyHasElement(s);
    var x :| x in s; x
  }

  lemma NonEmptyHasElement(s: set<int>)
    requires s != {}
    ensures exists x :: x in s
  {
    if forall x :: x !in s {
      assert false;
    }
  }

  lemma NotLaterTransitive(rows: map<int, CommentRow>, a: int, b: int, c: int)
    requires a in rows && b in rows && c in rows
    requires NotLater(rows, a, b) && NotLater(rows, b, c)
    ensures NotLater(rows, a, c)
  {
  }

  lemma {:induction false} EarliestExists(rows: map<int, CommentRow>, ids: set<int>)
    requires ids != {} && ids <= rows.Keys
    ensures exists m :: m in ids && forall x :: x in ids ==> NotLater(rows, m, x)
    decreases |ids|
  {
    var y := Pick(ids);
    var rest := ids - {y};
    if rest == {} {
      assert forall x :: x in ids ==> x == y || x in rest;
      assert NotLater(rows, y, y);
    } else {
      EarliestExists(rows, rest);
      var m :| m in rest && forall x :: x in rest ==> NotLater(rows, m, x);
      if NotLater(rows, m, y) {
        assert forall x :: x in ids ==> x == y || x in rest;
      } else {
        assert NotLater(rows, y, m);
        forall x | x in ids
          ensures NotLater(rows, y, x)
        {
          if x != y {
            NotLaterTransitive(rows, y, m, x);
          }
        }
      }
    }
  }

  /** The first of `ids` in creation order. */
  function Earliest(rows: map<int, CommentRow>, ids: set<int>): (m: int)
    requires ids != {} && ids <= rows.Keys
    ensures m in ids && forall x :: x in ids ==> NotLater(rows, m, x)
  {
    EarliestExists(rows, ids);
    var m :| m in ids && forall x :: x in ids ==> NotLater(rows, m, x);
    m
  }

  /** The rows `ids` in ascending creation order: each id once, nothing else. */
  function InCreationOrder(rows: map<int, CommentRow>, ids: set<int>): (r: seq<int>)
    requires ids <= rows.Keys
    ensures |r| == |ids|
    ensures forall i :: 0 <= i < |r| ==> r[i] in ids
    ensures forall x :: x in ids ==> x in r
    ensures forall i, j :: 0 <= i < j < |r| ==> r[i] != r[j] && NotLater(rows, r[i], r[j])
    decreases |ids|
  {
    if ids == {} then []
    else
      var m := Earliest(rows, ids);
      [m] + InCreationOrder(rows, ids - {m})
  }

  /** `WHERE post_id = $1 AND parent_id IS NULL` */
  function RootIds(rows: map<int, CommentRow>, postId: int): (s: set<int>)
    ensures s <= rows.Keys
    ensures forall id :: id in s <==> id in rows && rows[id].postId == postId && rows[id].parentId.None?
  {
    set id | id in rows && rows[id].postId == postId && rows[id].parentId.None?
  }

  /** `WHERE parent_id = $1` */
  function ChildIds(rows: map<int, CommentRow>, parentId: int): (s: set<int>)
    ensures s <= rows.Keys
    ensures forall id :: id in s <==> id in rows && rows[id].parentId == Some(parentId)
  {
    set id | id in rows && rows[id].parentId == Some(parentId)
  }

  /** getReplies(parentId, currentDepth, maxDepth): nothing once the depth
      bound is reached, otherwise the comments whose parent is `parentId`, in
      creation order, each with its own replies one level further down. The
      depth bound, not the data, ends the recursion, so a cycle of parent
      links cannot make it run away. */
  function GetReplies(rows: map<int, CommentRow>, users: map<int, UserRow>, parentId: int,
                      currentDepth: int, maxDepth: int): (r: seq<CommentView>)
    ensures currentDepth >= maxDepth ==> r == []
    ensures currentDepth < maxDepth ==>
      var ids := InCreationOrder(rows, ChildIds(rows, parentId));
      |r| == |ids| && forall i :: 0 <= i < |r| ==> r[i].comment == FormatComment(JoinAuthor(ids[i], rows[ids[i]], users))
    ensures currentDepth + 1 >= maxDepth ==> forall i :: 0 <= i < |r| ==> r[i].replies == []
    decreases maxDepth - currentDepth
  {
    if currentDepth >= maxDepth then []
    else
      var ids := InCreationOrder(rows, ChildIds(rows, parentId));
      seq(|ids|, i requires 0 <= i < |ids| =>
        CommentView(FormatComment(JoinAuthor(ids[i], rows[ids[i]], users)),
                    GetReplies(rows, users, ids[i], currentDepth + 1, maxDepth)))
  }

  /** With the default bounds (depth 0, at most 1) the replies are exactly the
      direct children of `parentId`, each parented by it, in ascending
      creation time, and none of them carries replies of its own. */
  lemma RepliesOneLevel(rows: map<int, CommentRow>, users: map<int, UserRow>, parentId: int)
    ensures var r := GetReplies(rows, users, parentId, 0, 1);
      && |r| == |ChildIds(rows, parentId)|
      && (forall i :: 0 <= i < |r| ==> r[i].comment.id in ChildIds(rows, parentId))
      && (forall i :: 0 <= i < |r| ==> r[i].comment.parentId == Some(parentId) && r[i].replies == [])
      && (forall id :: id in ChildIds(rows, parentId) ==> exists i :: 0 <= i < |r| && r[i].comment.id == id)
      && (forall i, j :: 0 <= i < j < |r| ==> r[i].comment.createdAt <= r[j].comment.createdAt)
  {
    RepliesAreChildren(rows, users, parentId);
    RepliesCoverChildren(rows, users, parentId);
    RepliesOrdered(rows, users, parentId);
  }

  /** The `i`-th reply shows the `i`-th child in creation order. */
  lemma ReplyAt(rows: map<int, CommentRow>, users: map<int, UserRow>, parentId: int, i: int)
    requires 0 <= i < |GetReplies(rows, users, parentId, 0, 1)|
    ensures var ids := InCreationOrder(rows, ChildIds(rows, parentId));
      var c := GetReplies(rows, users, parentId, 0, 1)[i];
      && i < |ids| && ids[i] in ChildIds(rows, parentId)
      && c.comment.id == ids[i] && c.comment.parentId == rows[ids[i]].parentId
      && c.comment.createdAt == rows[ids[i]].createdAt && c.replies == []
  {
  }

  lemma RepliesAreChildren(rows: map<int, CommentRow>, users: map<int, UserRow>, parentId: int)
    ensures var r := GetReplies(rows, users, parentId, 0, 1);
      && |r| == |ChildIds(rows, parentId)|
      && (forall i :: 0 <= i < |r| ==> r[i].comment.id in ChildIds(rows, parentId))
      && (forall i :: 0 <= i < |r| ==> r[i].comment.parentId == Some(parentId) && r[i].replies == [])
  {
    var r := GetReplies(rows, users, parentId, 0, 1);
    forall i | 0 <= i < |r|
      ensures r[i].comment.id in ChildIds(rows, parentId)
      ensures r[i].comment.parentId == Some(parentId) && r[i].replies == []
    {
      ReplyAt(rows, users, parentId, i);
    }
  }

  lemma RepliesCoverChildren(rows: map<int, CommentRow>, users: map<int, UserRow>, parentId: int)
    ensures var r := GetReplies(rows, users, parentId, 0, 1);
      forall id :: id in ChildIds(rows, parentId) ==> exists i :: 0 <= i < |r| && r[i].comment.id == id
  {
    var r := GetReplies(rows, users, parentId, 0, 1);
    var ids := InCreationOrder(rows, ChildIds(rows, parentId));
    forall id | id in ChildIds(rows, parentId) ensures exists i :: 0 <= i < |r| && r[i].comment.id == id {
      var i :| 0 <= i < |ids| && ids[i] == id;
      ReplyAt(rows, users, parentId, i);
    }
  }

  lemma RepliesOrdered(rows: map<int, CommentRow>, users: map<int, UserRow>, parentId: int)
    ensures var r := GetReplies(rows, users, parentId, 0, 1);
      forall i, j :: 0 <= i < j < |r| ==> r[i].comment.createdAt <= r[j].comment.createdAt
  {
    var r := GetReplies(rows, users, parentId, 0, 1);
    var ids := InCreationOrder(rows, ChildIds(rows, parentId));
    forall i, j | 0 <= i < j < |r| ensures r[i].comment.createdAt <= r[j].comment.createdAt {
      ReplyAt(rows, users, parentId, i);
      ReplyAt(rows, users, parentId, j);
      assert NotLater(rows, ids[i], ids[j]);
    }
  }

  /** The part of `s` that `LIMIT limit OFFSET offset` keeps. */
  function Window<T>(s: seq<T>, offset: nat, limit: nat): (w: seq<T>)
    ensures |w| <= limit
    ensures forall i :: 0 <= i < |w| ==> offset + i < |s| && w[i] == s[offset + i]
    ensures offset >= |s| ==> w == []
    ensures offset < |s| ==> w == s[offset..if offset + limit <= |s| then offset + limit else |s|]
  {
    if offset >= |s| then []
    else if offset + limit <= |s| then s[offset..offset + limit]
    else s[offset..]
  }

  /** The offset of a page: pages count from 1. */
  function PageOffset(page: int, limit: int): int
  {
    (page - 1) * limit
  }

  /** A top-level comment with its direct replies, as findByPostId lists it. */
  function RootView(rows: map<int, CommentRow>, users: map<int, UserRow>, id: int): CommentView
    requires id in rows
  {
    CommentView(FormatComment(JoinAuthor(id, rows[id], users)), GetReplies(rows, users, id, 0, 1))
  }

  /** findByPostId: the post's top-level comments in creation order, the page
      starting at offset (page - 1) * limit, each with its direct replies.
      A negative offset or limit makes the database reject the query (None).
      The source also counts the top-level comments but does not return the
      count. */
  function FindByPostId(rows: map<int, CommentRow>, users: map<int, UserRow>, postId: int,
                        page: int, limit: int): (r: Option<seq<CommentView>>)
    ensures r.None? <==> PageOffset(page, limit) < 0 || limit < 0
    ensures r.Some? ==>
      var w := Window(InCreationOrder(rows, RootIds(rows, postId)), PageOffset(page, limit), limit);
      && |r.value| == |w|
      && forall i :: 0 <= i < |r.value| ==> w[i] in rows && r.value[i] == RootView(rows, users, w[i])
  {
    var offset := PageOffset(page, limit);
    if offset < 0 || limit < 0 then None
    else
      var w := Window(InCreationOrder(rows, RootIds(rows, postId)), offset, limit);
      Some(seq(|w|, i requires 0 <= i < |w| => RootView(rows, users, w[i])))
  }

  /** At most `limit` comments are listed; they are top-level comments of the
      post, consecutive in creation order from the page's offset on, and no
      reply under them has replies. */
  lemma ListingShape(rows: map<int, CommentRow>, users: map<int, UserRow>, postId: int, page: int, limit: int)
    requires FindByPostId(rows, users, postId, page, limit).Some?
    ensures var list := FindByPostId(rows, users, postId, page, limit).value;
      var roots := InCreationOrder(rows, RootIds(rows, postId));
      && |list| <= limit
      && (forall i :: 0 <= i < |list| ==>
            && PageOffset(page, limit) + i < |roots|
            && list[i].comment.id == roots[PageOffset(page, limit) + i]
            && list[i].comment.postId == postId && list[i].comment.parentId.None?)
      && (forall i, j :: 0 <= i < j < |list| ==> list[i].comment.createdAt <= list[j].comment.createdAt)
      && (forall i, k :: 0 <= i < |list| && 0 <= k < |list[i].replies| ==>
            list[i].replies[k].comment.parentId == Some(list[i].comment.id) && list[i].replies[k].replies == [])
  {
    ListingIsPage(rows, users, postId, page, limit);
    ListingOrdered(rows, users, postId, page, limit);
    ListingRepliesFlat(rows, users, postId, page, limit);
  }

  lemma ListingIsPage(rows: map<int, CommentRow>, users: map<int, UserRow>, postId: int, page: int, limit: int)
    requires FindByPostId(rows, users, postId, page, limit).Some?
    ensures var list := FindByPostId(rows, users, postId, page, limit).value;
      var roots := InCreationOrder(rows, RootIds(rows, postId));
      forall i :: 0 <= i < |list| ==>
        && PageOffset(page, limit) + i < |roots|
        && list[i].comment.id == roots[PageOffset(page, limit) + i]
        && list[i].comment.postId == postId && list[i].comment.parentId.None?
  {
    var list := FindByPostId(rows, users, postId, page, limit).value;
    forall i | 0 <= i < |list| ensures list[i].comment.postId == postId && list[i].comment.parentId.None? {
      ListingAt(rows, users, postId, page, limit, i);
    }
    forall i | 0 <= i < |list| {
      ListingAt(rows, users, postId, page, limit, i);
    }
  }

  lemma ListingOrdered(rows: map<int, CommentRow>, users: map<int, UserRow>, postId: int, page: int, limit: int)
    requires FindByPostId(rows, users, postId, page, limit).Some?
    ensures var list := FindByPostId(rows, users, postId, page, limit).value;
      forall i, j :: 0 <= i < j < |list| ==> list[i].comment.createdAt <= list[j].comment.createdAt
  {
    var list := FindByPostId(rows, users, postId, page, limit).value;
    forall i, j | 0 <= i < j < |list| ensures list[i].comment.createdAt <= list[j].comment.createdAt {
      ListingPairOrdered(rows, users, postId, page, limit, i, j);
    }
  }

  lemma ListingPairOrdered(rows: map<int, CommentRow>, users: map<int, UserRow>, postId: int, page: int, limit: int,
                           i: int, j: int)
    requires FindByPostId(rows, users, postId, page, limit).Some?
    requires 0 <= i < j < |FindByPostId(rows, users, postId, page, limit).value|
    ensures var list := FindByPostId(rows, users, postId, page, limit).value;
      list[i].comment.createdAt <= list[j].comment.createdAt
  {
    var roots := InCreationOrder(rows, RootIds(rows, postId));
    var offset := PageOffset(page, limit);
    ListingAt(rows, users, postId, page, limit, i);
    ListingAt(rows, users, postId, page, limit, j);
    assert NotLater(rows, roots[offset + i], roots[offset + j]);
  }

  lemma ListingRepliesFlat(rows: map<int, CommentRow>, users: map<int, UserRow>, postId: int, page: int, limit: int)
    requires FindByPostId(rows, users, postId, page, limit).Some?
    ensures var list := FindByPostId(rows, users, postId, page, limit).value;
      forall i, k :: 0 <= i < |list| && 0 <= k < |list[i].replies| ==>
        list[i].replies[k].comment.parentId == Some(list[i].comment.id) && list[i].replies[k].replies == []
  {
    var list := FindByPostId(rows, users, postId, page, limit).value;
    forall i, k | 0 <= i < |list| && 0 <= k < |list[i].replies|
      ensures list[i].replies[k].comment.parentId == Some(list[i].comment.id) && list[i].replies[k].replies == []
    {
      ListingAt(rows, users, postId, page, limit, i);
      RepliesAreChildren(rows, users, list[i].comment.id);
    }
  }

  /** The `i`-th listed comment is the root at the page's offset plus `i`,
      shown with its direct replies. */
  lemma ListingAt(rows: map<int, CommentRow>, users: map<int, UserRow>, postId: int, page: int, limit: int, i: int)
    requires FindByPostId(rows, users, postId, page, limit).Some?
    requires 0 <= i < |FindByPostId(rows, users, postId, page, limit).value|
    ensures var roots := InCreationOrder(rows, RootIds(rows, postId));
      var offset := PageOffset(page, limit);
      var c := FindByPostId(rows, users, postId, page, limit).value[i];
      && 0 <= offset && offset + i < |roots| && roots[offset + i] in RootIds(rows, postId)
      && c.comment.id == roots[offset + i]
      && c.comment.postId == rows[roots[offset + i]].postId
      && c.comment.parentId == rows[roots[offset + i]].parentId
      && c.comment.createdAt == rows[roots[offset + i]].createdAt
      && c.replies == GetReplies(rows, users, roots[offset + i], 0, 1)
  {
    var roots := InCreationOrder(rows, RootIds(rows, postId));
    var w := Window(roots, PageOffset(page, limit), limit);
    assert w[i] == roots[PageOffset(page, limit) + i];
  }

  /** The comments table: rows keyed by id and the id sequence that numbers
      new rows. */
  class CommentTable {
    var rows: map<int, CommentRow>
    var nextId: int

    /** Every stored id was drawn from the sequence, which starts at 1. */
    ghost predicate Valid()
      reads this
    {
      nextId >= 1 && forall id :: id in rows ==> 1 <= id < nextId
    }

    constructor ()
      ensures Valid() && rows == map[] && nextId == 1
    {
      rows := map[];
      nextId := 1;
    }

    /** create: inserts one row with the next id, no likes and both
        timestamps at `now` (the columns the INSERT leaves to their
        defaults), and returns it as findById reads it back. */
    method Create(content: string, authorId: int, postId: int, parentId: Option<int>, now: int,
                  users: map<int, UserRow>) returns (created: JoinedRow)
      requires Valid()
      modifies this
      ensures Valid()
      ensures created.id == old(nextId) && created.id !in old(rows)
      ensures rows == old(rows)[created.id := CommentRow(content, authorId, postId, parentId, 0, now, now)]
      ensures nextId == old(nextId) + 1
      ensures Some(created) == FindById(rows, users, created.id)
    {
      var id := nextId;
      rows := rows[id := CommentRow(content, authorId, postId, parentId, 0, now, now)];
      nextId := nextId + 1;
      created := JoinAuthor(id, rows[id], users);
    }

    /** update: replaces the content and the update time of an existing row
        and returns it joined; a missing id changes nothing and gives None. */
    method Update(id: int, content: string, now: int, users: map<int, UserRow>) returns (updated: Option<JoinedRow>)
      requires Valid()
      modifies this
      ensures Valid() && nextId == old(nextId)
      ensures id !in old(rows) ==> updated.None? && rows == old(rows)
      ensures id in old(rows) ==>
        && rows == old(rows)[id := old(rows)[id].(content := content, updatedAt := now)]
        && updated == FindById(rows, users, id)
    {
      if id in rows {
        rows := rows[id := rows[id].(content := content, updatedAt := now)];
        updated := FindById(rows, users, id);
      } else {
        updated := None;
      }
    }

    /** delete: removes the row and returns its id, or None when there is no
        such row. */
    method Delete(id: int) returns (deleted: Option<int>)
      requires Valid()
      modifies this
      ensures Valid() && nextId == old(nextId)
      ensures deleted == (if id in old(rows) then Some(id) else None)
      ensures rows == old(rows) - {id}
    {
      deleted := if id in rows then Some(id) else None;
      rows := rows - {id};
    }
  }
}
