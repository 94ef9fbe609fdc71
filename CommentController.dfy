/**
 * The comment endpoints (backend/controllers/commentController.js): listing
 * a post's comments, commenting on a post, replying to a comment, and the
 * walk up the parent links that keeps replies one level deep. The database
 * is the forum's state: the comments table, the posts and users the
 * handlers look up, and the notifications the handlers insert.
 */
module CommentController {
  import opened Common
  import opened CommentModel

  /** The columns of a post the handlers read. */
  datatype PostRow = PostRow(authorId: Option<int>, title: Option<string>)

  datatype NotificationKind = CommentNotice | ReplyNotice

  /** A row handed to Notification.create. */
  datatype Notification = Notification(
    userId: int,
    kind: NotificationKind,
    title: string,
    content: string,
    relatedPostId: int,
    relatedUserId: int)

  datatype ErrorCode = PostNotFound | CommentNotFound | InvalidParent | MaxDepthReached | InternalError

  datatype Failure = Failure(status: int, error: ErrorCode)

  datatype Response =
    | Listed(comments: seq<CommentView>)
    | Created(comment: FormattedComment)
    | Failed(failure: Failure)

  /** Which database call fails after the comment has been inserted: the
      lookup of the post's author and the actor's name, the lookup of the
      post's title, or the `attempt`-th notification insert (from 0). */
  datatype Fault = NoFault | RecipientLookupFails | TitleLookupFails | InsertFails(attempt: nat)

  // ---------------------------------------------------------------------
  // getCommentDepth

  /** The parent getCommentDepth moves to from `id`: none when the row is
      missing or its parent_id is null or 0 (falsy). */
  function ParentLink(rows: map<int, CommentRow>, id: int): (r: Option<int>)
    ensures r.Some? <==> id in rows && rows[id].parentId.Some? && rows[id].parentId.value != 0
    ensures r.Some? ==> r == rows[id].parentId
  {
    if id in rows && rows[id].parentId.Some? && rows[id].parentId.value != 0 then rows[id].parentId else None
  }

  /** The depth the loop reports when it stands at `current` having counted
      `depth` links: it stops at id 0, at a comment without a parent link, or
      once more than ten links have been followed. */
  function DepthWalk(rows: map<int, CommentRow>, current: int, depth: nat): (d: nat)
    requires depth <= 10
    ensures depth <= d <= 11
    decreases 10 - depth
  {
    if current == 0 then depth
    else match ParentLink(rows, current)
      case None => depth
      case Some(p) => if depth + 1 > 10 then depth + 1 else DepthWalk(rows, p, depth + 1)
  }

  function CommentDepth(rows: map<int, CommentRow>, id: int): nat
  {
    DepthWalk(rows, id, 0)
  }

  /** `id` reaches a comment without a parent link in exactly `n` links. */
  ghost predicate HopsToTop(rows: map<int, CommentRow>, id: int, n: nat)
    decreases n
  {
    if n == 0 then id == 0 || ParentLink(rows, id).None?
    else id != 0 && ParentLink(rows, id).Some? && HopsToTop(rows, ParentLink(rows, id).value, n - 1)
  }

  /** At least `n` parent links can be followed from `id` (a cycle of parent
      links allows any number). */
  ghost predicate AtLeastHops(rows: map<int, CommentRow>, id: int, n: nat)
    decreases n
  {
    n == 0 || (id != 0 && ParentLink(rows, id).Some? && AtLeastHops(rows, ParentLink(rows, id).value, n - 1))
  }

  lemma {:induction false} WalkCountsHops(rows: map<int, CommentRow>, current: int, depth: nat, n: nat)
    requires HopsToTop(rows, current, n) && depth + n <= 10
    ensures DepthWalk(rows, current, depth) == depth + n
    decreases n
  {
    if n > 0 {
      WalkCountsHops(rows, ParentLink(rows, current).value, depth + 1, n - 1);
    }
  }

  /** On a parent chain of at most ten links the depth is the number of
      links to the top-level comment. */
  lemma DepthCountsHops(rows: map<int, CommentRow>, id: int, n: nat)
    requires HopsToTop(rows, id, n) && n <= 10
    ensures CommentDepth(rows, id) == n
  {
    WalkCountsHops(rows, id, 0, n);
  }

  lemma {:induction false} WalkCapped(rows: map<int, CommentRow>, current: int, depth: nat)
    requires depth <= 10 && AtLeastHops(rows, current, 11 - depth)
    ensures DepthWalk(rows, current, depth) == 11
    decreases 10 - depth
  {
    if depth < 10 {
      WalkCapped(rows, ParentLink(rows, current).value, depth + 1);
    }
  }

  /** On a longer chain, or a cycle, the walk gives up at 11. */
  lemma DepthCapped(rows: map<int, CommentRow>, id: int)
    requires AtLeastHops(rows, id, 11)
    ensures CommentDepth(rows, id) == 11
  {
    WalkCapped(rows, id, 0);
  }

  /** A comment that is its own parent still gets a depth, 11: the walk
      ends although the links never do. */
  lemma SelfParentTerminates(rows: map<int, CommentRow>, c: int)
    requires c != 0 && c in rows && rows[c].parentId == Some(c)
    ensures CommentDepth(rows, c) == 11
  {
    SelfParentHops(rows, c, 11);
    DepthCapped(rows, c);
  }

  /** From a self-parented comment any number of parent links can be
      followed. */
  lemma {:induction false} SelfParentHops(rows: map<int, CommentRow>, c: int, n: nat)
    requires c != 0 && c in rows && rows[c].parentId == Some(c)
    ensures AtLeastHops(rows, c, n)
  {
    if n > 0 {
      SelfParentHops(rows, c, n - 1);
    }
  }

  /** Depth 0, the only depth the handlers accept a reply under, means the
      comment has no parent link. */
  lemma DepthZero(rows: map<int, CommentRow>, id: int)
    ensures CommentDepth(rows, id) == 0 <==> id == 0 || ParentLink(rows, id).None?
  {
  }

  // ---------------------------------------------------------------------
  // The one-level shape of the comment threads

  /** The row names a parent that is stored. */
  predicate HasStoredParent(rows: map<int, CommentRow>, id: int)
    requires id in rows
  {
    rows[id].parentId.Some? && rows[id].parentId.value in rows
  }

  /** Replies are one level deep: a stored parent is a comment of the same
      post whose own parent_id is null or 0, so getCommentDepth stops there
      (a parent_id naming a deleted row would still be followed). */
  ghost predicate OneLevel(rows: map<int, CommentRow>)
  {
    forall id :: id in rows && HasStoredParent(rows, id) ==>
      ParentLink(rows, rows[id].parentId.value).None? && rows[rows[id].parentId.value].postId == rows[id].postId
  }

  /** Every parent id a row names was issued before `next`. */
  ghost predicate ParentsIssued(rows: map<int, CommentRow>, next: int)
  {
    forall id :: id in rows && rows[id].parentId.Some? ==> rows[id].parentId.value < next
  }

  /** On one-level threads no comment is deeper than 1, so the depth check
      of the handlers never meets a deeper chain. */
  lemma DepthAtMostOne(rows: map<int, CommentRow>, id: int)
    requires OneLevel(rows)
    ensures CommentDepth(rows, id) <= 1
  {
    if id != 0 && ParentLink(rows, id).Some? {
      var p := ParentLink(rows, id).value;
      if p in rows {
        assert HasStoredParent(rows, id);
      }
      assert ParentLink(rows, p).None?;
    }
  }

  /** Inserting a row under the fresh id `next` keeps the threads one level
      deep when the row is top-level or its parent is a stored top-level
      comment of the same post. */
  lemma InsertKeepsOneLevel(rows: map<int, CommentRow>, next: int, row: CommentRow)
    requires forall k :: k in rows ==> k < next
    requires OneLevel(rows) && ParentsIssued(rows, next)
    requires row.parentId.Some? ==>
      row.parentId.value in rows && ParentLink(rows, row.parentId.value).None?
      && rows[row.parentId.value].postId == row.postId
    ensures OneLevel(rows[next := row]) && ParentsIssued(rows[next := row], next + 1)
  {
    var rows' := rows[next := row];
    forall id | id in rows' && HasStoredParent(rows', id)
      ensures ParentLink(rows', rows'[id].parentId.value).None? && rows'[rows'[id].parentId.value].postId == rows'[id].postId
    {
      var p := rows'[id].parentId.value;
      if id != next {
        assert p < next;
        assert HasStoredParent(rows, id);
      }
      assert p != next && p in rows;
      assert ParentLink(rows, p).None?;
    }
  }

  /** Deleting a comment keeps the threads one level deep (its replies are
      left with a parent that is no longer stored). */
  lemma DeleteKeepsOneLevel(rows: map<int, CommentRow>, next: int, id: int)
    requires OneLevel(rows) && ParentsIssued(rows, next)
    ensures OneLevel(rows - {id}) && ParentsIssued(rows - {id}, next)
  {
    var rows' := rows - {id};
    forall c | c in rows' && HasStoredParent(rows', c)
      ensures ParentLink(rows', rows'[c].parentId.value).None? && rows'[rows'[c].parentId.value].postId == rows'[c].postId
    {
      assert HasStoredParent(rows, c);
      assert ParentLink(rows, rows[c].parentId.value).None?;
    }
  }

  /** Editing a comment's content keeps the threads one level deep. */
  lemma UpdateKeepsOneLevel(rows: map<int, CommentRow>, next: int, id: int, content: string, now: int)
    requires id in rows && OneLevel(rows) && ParentsIssued(rows, next)
    ensures var rows' := rows[id := rows[id].(content := content, updatedAt := now)];
      OneLevel(rows') && ParentsIssued(rows', next)
  {
    var rows' := rows[id := rows[id].(content := content, updatedAt := now)];
    forall c | c in rows' && HasStoredParent(rows', c)
      ensures ParentLink(rows', rows'[c].parentId.value).None? && rows'[rows'[c].parentId.value].postId == rows'[c].postId
    {
      assert HasStoredParent(rows, c);
      assert ParentLink(rows, rows[c].parentId.value).None?;
    }
  }

  // ---------------------------------------------------------------------
  // The checks the handlers make before inserting

  /** A parentId in the request body counts only when truthy (not 0). */
  function RequestedParent(parentId: Option<int>): (r: Option<int>)
    ensures r.Some? <==> parentId.Some? && parentId.value != 0
    ensures r.Some? ==> r == parentId
  {
    if parentId.Some? && parentId.value != 0 then parentId else None
  }

  /** createComment's checks, in order: the post exists, the parent exists,
      the parent belongs to the post, the parent is at depth 0. */
  function CreateCheck(rows: map<int, CommentRow>, posts: map<int, PostRow>, postId: int,
                       parentId: Option<int>): (r: Option<Failure>)
    ensures r == Some(Failure(404, PostNotFound)) <==> postId !in posts
    ensures r == Some(Failure(404, CommentNotFound)) <==>
      postId in posts && RequestedParent(parentId).Some? && parentId.value !in rows
    ensures r == Some(Failure(400, InvalidParent)) <==>
      postId in posts && RequestedParent(parentId).Some? && parentId.value in rows
      && rows[parentId.value].postId != postId
    ensures r == Some(Failure(400, MaxDepthReached)) <==>
      postId in posts && RequestedParent(parentId).Some? && parentId.value in rows
      && rows[parentId.value].postId == postId && ParentLink(rows, parentId.value).Some?
    ensures r.None? ==> postId in posts
    ensures r.None? && RequestedParent(parentId).Some? ==>
      parentId.value in rows && rows[parentId.value].postId == postId && ParentLink(rows, parentId.value).None?
  {
    if postId !in posts then Some(Failure(404, PostNotFound))
    else match RequestedParent(parentId)
      case None => None
      case Some(p) =>
        if p !in rows then Some(Failure(404, CommentNotFound))
        else if rows[p].postId != postId then Some(Failure(400, InvalidParent))
        else if CommentDepth(rows, p) >= 1 then Some(Failure(400, MaxDepthReached))
        else None
  }

  /** replyComment's checks: the comment exists and is at depth 0. */
  function ReplyCheck(rows: map<int, CommentRow>, commentId: int): (r: Option<Failure>)
    ensures r == Some(Failure(404, CommentNotFound)) <==> commentId !in rows
    ensures r == Some(Failure(400, MaxDepthReached)) <==>
      commentId in rows && commentId != 0 && ParentLink(rows, commentId).Some?
    ensures r.None? <==> commentId in rows && (commentId == 0 || ParentLink(rows, commentId).None?)
  {
    if commentId !in rows then Some(Failure(404, CommentNotFound))
    else if CommentDepth(rows, commentId) >= 1 then Some(Failure(400, MaxDepthReached))
    else None
  }

  // ---------------------------------------------------------------------
  // Who is notified

  /** The actor's username, or '用户' when it has none. */
  function DisplayName(users: map<int, UserRow>, userId: int): (r: string)
    ensures r != []
    ensures userId in users && users[userId].username != [] ==> r == users[userId].username
  {
    if userId in users && users[userId].username != [] then users[userId].username else "用户"
  }

  /** The post's title, or '帖子' when it has none. */
  function PostTitle(posts: map<int, PostRow>, postId: int): (r: string)
    ensures r != []
  {
    if postId in posts && posts[postId].title.Some? && posts[postId].title.value != [] then posts[postId].title.value
    else "帖子"
  }

  function PostAuthor(posts: map<int, PostRow>, postId: int): Option<int>
  {
    if postId in posts then posts[postId].authorId else None
  }

  /** A user id the handlers notify: truthy and not the actor. */
  predicate Notifiable(author: Option<int>, actor: int)
  {
    author.Some? && author.value != 0 && author.value != actor
  }

  function CommentNotification(recipient: int, name: string, title: string, postId: int, actor: int): Notification
  {
    Notification(recipient, CommentNotice, name + " 评论了你的帖子", title, postId, actor)
  }

  function ReplyNotification(recipient: int, name: string, title: string, postId: int, actor: int): Notification
  {
    Notification(recipient, ReplyNotice, name + " 回复了你的评论", title, postId, actor)
  }

  predicate Notified(planned: seq<Notification>, u: int)
  {
    exists i :: 0 <= i < |planned| && planned[i].userId == u
  }

  /** The notification createComment plans: one comment notice to the post's
      author, unless the author is missing or is the commenter. */
  function CommentNotices(postAuthor: Option<int>, actor: int, name: string, title: string, postId: int)
    : (planned: seq<Notification>)
    ensures |planned| <= 1
    ensures forall u :: Notified(planned, u) <==> Notifiable(postAuthor, actor) && postAuthor == Some(u)
    ensures forall i :: 0 <= i < |planned| ==>
      && planned[i].userId != actor && planned[i].kind == CommentNotice
      && planned[i].content == title && planned[i].relatedPostId == postId && planned[i].relatedUserId == actor
  {
    if Notifiable(postAuthor, actor) then
      var planned := [CommentNotification(postAuthor.value, name, title, postId, actor)];
      assert planned[0].userId == postAuthor.value;
      planned
    else []
  }

  /** The notifications replyComment plans: a reply notice to the replied
      comment's author, then a comment notice to the post's author unless
      that is the same person. Nobody is notified about their own reply and
      nobody twice. */
  function ReplyNotices(parentAuthor: Option<int>, postAuthor: Option<int>, actor: int, name: string,
                        title: string, postId: int): (planned: seq<Notification>)
    ensures |planned| <= 2
    ensures forall u :: Notified(planned, u) <==>
      (Notifiable(parentAuthor, actor) && parentAuthor == Some(u)) || (Notifiable(postAuthor, actor) && postAuthor == Some(u))
    ensures forall i, j :: 0 <= i < j < |planned| ==> planned[i].userId != planned[j].userId
    ensures forall i :: 0 <= i < |planned| ==>
      && planned[i].userId != actor
      && (planned[i].kind == ReplyNotice <==> parentAuthor == Some(planned[i].userId))
      && planned[i].content == title && planned[i].relatedPostId == postId && planned[i].relatedUserId == actor
  {
    var toParent := if Notifiable(parentAuthor, actor) then [ReplyNotification(parentAuthor.value, name, title, postId, actor)] else [];
    var toPost := if Notifiable(postAuthor, actor) && postAuthor != parentAuthor
                  then [CommentNotification(postAuthor.value, name, title, postId, actor)] else [];
    assert toParent != [] ==> toParent[0].userId == parentAuthor.value;
    assert toPost != [] ==> toPost[0].userId == postAuthor.value;
    assert forall u :: Notified(toParent + toPost, u) <==> Notified(toParent, u) || Notified(toPost, u) by {
      forall u ensures Notified(toParent + toPost, u) <==> Notified(toParent, u) || Notified(toPost, u) {
        if Notified(toPost, u) {
          assert (toParent + toPost)[|toParent|] == toPost[0];
        }
        if Notified(toParent, u) {
          assert (toParent + toPost)[0] == toParent[0];
        }
        if Notified(toParent + toPost, u) {
          var i :| 0 <= i < |toParent + toPost| && (toParent + toPost)[i].userId == u;
          if i < |toParent| {
            assert toParent[i].userId == u;
          } else {
            assert toPost[i - |toParent|].userId == u;
          }
        }
      }
    }
    toParent + toPost
  }

  /** How many of the planned notifications get inserted: none when a lookup
      they need fails, otherwise those before the first failing insert. */
  function DeliveredCount(fault: Fault, planned: nat): (k: nat)
    ensures k <= planned
    ensures fault == NoFault ==> k == planned
    ensures fault == RecipientLookupFails || fault == TitleLookupFails ==> k == 0
  {
    match fault
    case NoFault => planned
    case RecipientLookupFails => 0
    case TitleLookupFails => 0
    case InsertFails(attempt) => if attempt < planned then attempt else planned
  }

  // ---------------------------------------------------------------------
  // The handlers

  class Forum {
    const table: CommentTable
    var notifications: seq<Notification>
    const posts: map<int, PostRow>
    const users: map<int, UserRow>

    ghost predicate Valid()
      reads this, table
    {
      table.Valid() && OneLevel(table.rows) && ParentsIssued(table.rows, table.nextId)
    }

    constructor (posts: map<int, PostRow>, users: map<int, UserRow>)
      ensures Valid() && fresh(table)
      ensures table.rows == map[] && notifications == []
      ensures this.posts == posts && this.users == users
    {
      table := new CommentTable();
      notifications := [];
      this.posts := posts;
      this.users := users;
    }

    /** Every state the handlers keep has all depths at most 1. */
    lemma ValidDepths()
      requires Valid()
      ensures forall id :: CommentDepth(table.rows, id) <= 1
    {
      forall id {
        DepthAtMostOne(table.rows, id);
      }
    }

    /** getCommentDepth: follows parent links from `commentId`, counting
        them, until a comment has none or more than ten were followed. */
    method GetCommentDepth(commentId: int) returns (depth: nat)
      ensures depth == CommentDepth(table.rows, commentId)
      ensures depth <= 11
    {
      depth := 0;
      var current := commentId;
      while current != 0
        invariant depth <= 10
        invariant DepthWalk(table.rows, current, depth) == CommentDepth(table.rows, commentId)
        decreases 10 - depth
      {
        var link := ParentLink(table.rows, current);
        if link.None? {
          break;
        }
        current := link.value;
        depth := depth + 1;
        if depth > 10 {
          break;
        }
      }
    }

    /** getComments: 404 for a missing post, otherwise the page of at most 20
        top-level comments findByPostId lists; a page below 1 makes the query
        fail (500). */
    function GetComments(postId: int, page: int): (response: Response)
      reads this, table
      ensures postId !in posts ==> response == Failed(Failure(404, PostNotFound))
      ensures postId in posts && page < 1 ==> response == Failed(Failure(500, InternalError))
      ensures postId in posts && page >= 1 ==>
        response == Listed(FindByPostId(table.rows, users, postId, page, 20).value)
      ensures response.Listed? ==> |response.comments| <= 20
    {
      if postId !in posts then Failed(Failure(404, PostNotFound))
      else match FindByPostId(table.rows, users, postId, page, 20)
        case None => Failed(Failure(500, InternalError))
        case Some(comments) => Listed(comments)
    }

    /** createComment: a failed check changes nothing; otherwise the comment
        is stored, then the post's author is notified. The lookup of the
        post's author and the commenter's name runs outside the handler's
        notification guard, so its failure answers 500 although the comment
        is already stored. */
    method CreateComment(postId: int, userId: int, content: string, parentId: Option<int>, now: int, fault: Fault)
      returns (response: Response)
      requires Valid()
      modifies this, table
      ensures Valid()
      ensures var check := CreateCheck(old(table.rows), posts, postId, parentId);
        check.Some? ==>
          && response == Failed(check.value)
          && table.rows == old(table.rows) && table.nextId == old(table.nextId)
          && notifications == old(notifications)
      ensures var check := CreateCheck(old(table.rows), posts, postId, parentId);
        var id := old(table.nextId);
        var row := CommentRow(content, userId, postId, RequestedParent(parentId), 0, now, now);
        var planned := CommentNotices(PostAuthor(posts, postId), userId, DisplayName(users, userId), PostTitle(posts, postId), postId);
        check.None? ==>
          && table.rows == old(table.rows)[id := row] && table.nextId == id + 1
          && notifications == old(notifications) + planned[..DeliveredCount(fault, |planned|)]
          && (fault == RecipientLookupFails ==> response == Failed(Failure(500, InternalError)))
          && (fault != RecipientLookupFails ==> response == Created(FormatComment(JoinAuthor(id, row, users))))
    {
      var failure := CheckCreate(postId, parentId);
      if failure.Some? {
        return Failed(failure.value);
      }
      var parent := RequestedParent(parentId);
      var created := StoreChecked(content, userId, postId, parent, now);
      var formatted := FormatComment(created);
      if fault == RecipientLookupFails {
        return Failed(Failure(500, InternalError));
      }
      var postAuthor := PostAuthor(posts, postId);
      var name := DisplayName(users, userId);
      if Notifiable(postAuthor, userId) && fault != TitleLookupFails && fault != InsertFails(0) {
        var title := PostTitle(posts, postId);
        notifications := notifications + [CommentNotification(postAuthor.value, name, title, postId, userId)];
      }
      response := Created(formatted);
    }

    /** replyComment: a failed check changes nothing; otherwise the reply is
        stored under the comment's post, the notifications are inserted one
        after the other, and a failure among them only cuts them short. */
    method ReplyComment(commentId: int, userId: int, content: string, now: int, fault: Fault)
      returns (response: Response)
      requires Valid()
      modifies this, table
      ensures Valid()
      ensures var check := ReplyCheck(old(table.rows), commentId);
        check.Some? ==>
          && response == Failed(check.value)
          && table.rows == old(table.rows) && table.nextId == old(table.nextId)
          && notifications == old(notifications)
      ensures ReplyCheck(old(table.rows), commentId).None? ==>
        var parent := old(table.rows)[commentId];
        var id := old(table.nextId);
        var row := CommentRow(content, userId, parent.postId, Some(commentId), 0, now, now);
        var planned := ReplyNotices(Some(parent.authorId), PostAuthor(posts, parent.postId), userId,
                                    DisplayName(users, userId), PostTitle(posts, parent.postId), parent.postId);
        && table.rows == old(table.rows)[id := row] && table.nextId == id + 1
        && response == Created(FormatComment(JoinAuthor(id, row, users)))
        && notifications == old(notifications) + planned[..DeliveredCount(fault, |planned|)]
    {
      var found := FindById(table.rows, users, commentId);
      if found.None? {
        return Failed(Failure(404, CommentNotFound));
      }
      var depth := GetCommentDepth(commentId);
      if depth >= 1 {
        return Failed(Failure(400, MaxDepthReached));
      }
      DepthZero(table.rows, commentId);
      var parent := found.value.comment;
      var created := StoreChecked(content, userId, parent.postId, Some(commentId), now);
      response := Created(FormatComment(created));
      if fault == RecipientLookupFails || fault == TitleLookupFails {
        return;
      }
      var planned := ReplyNotices(Some(parent.authorId), PostAuthor(posts, parent.postId), userId,
                                  DisplayName(users, userId), PostTitle(posts, parent.postId), parent.postId);
      DeliverNotices(planned, fault);
    }

    /** The checks at the head of createComment, in the handler's order;
        the depth is the one getCommentDepth walks. */
    method CheckCreate(postId: int, parentId: Option<int>) returns (failure: Option<Failure>)
      ensures failure == CreateCheck(table.rows, posts, postId, parentId)
    {
      if postId !in posts {
        return Some(Failure(404, PostNotFound));
      }
      var parent := RequestedParent(parentId);
      if parent.Some? {
        var found := FindById(table.rows, users, parent.value);
        if found.None? {
          return Some(Failure(404, CommentNotFound));
        }
        if found.value.comment.postId != postId {
          return Some(Failure(400, InvalidParent));
        }
        var depth := GetCommentDepth(parent.value);
        if depth >= 1 {
          return Some(Failure(400, MaxDepthReached));
        }
      }
      return None;
    }

    /** Comment.create after the checks have passed: the row is stored under
        the next id and comes back joined with its author, and the threads
        keep their one-level shape. */
    method StoreChecked(content: string, userId: int, postId: int, parent: Option<int>, now: int)
      returns (created: JoinedRow)
      requires Valid()
      requires parent.Some? ==>
        parent.value in table.rows && ParentLink(table.rows, parent.value).None?
        && table.rows[parent.value].postId == postId
      modifies table
      ensures Valid()
      ensures var row := CommentRow(content, userId, postId, parent, 0, now, now);
        && table.rows == old(table.rows)[old(table.nextId) := row]
        && table.nextId == old(table.nextId) + 1
        && created == JoinAuthor(old(table.nextId), row, users)
    {
      InsertKeepsOneLevel(table.rows, table.nextId, CommentRow(content, userId, postId, parent, 0, now, now));
      created := table.Create(content, userId, postId, parent, now, users);
    }

    /** The two notification inserts of replyComment, one after the other;
        a failing insert skips what follows it. */
    method DeliverNotices(planned: seq<Notification>, fault: Fault)
      requires |planned| <= 2
      requires fault != RecipientLookupFails && fault != TitleLookupFails
      modifies this
      ensures notifications == old(notifications) + planned[..DeliveredCount(fault, |planned|)]
    {
      if |planned| >= 1 && fault != InsertFails(0) {
        notifications := notifications + [planned[0]];
        if |planned| == 2 && fault != InsertFails(1) {
          notifications := notifications + [planned[1]];
          assert planned[..2] == [planned[0]] + [planned[1]];
        }
      }
    }
  }
}
