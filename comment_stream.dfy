/**
 * The live part of the comment thread (src/components/ui/chatui.tsx,
 * `handleNewComment`): the state updater that folds one comment pushed by the
 * server into the current forest.
 *
 * The updater checks only the roots for a comment with the incoming id. A
 * reply is attached to the first root whose id is its parent id, or dropped
 * when no root has that id; a comment without a truthy parent id becomes the
 * last root.  `MergeAsWritten` is that updater.  Because only roots are
 * checked, a reply the server delivers twice is attached twice; `Merge` is
 * the updater with the duplicate check the code's own comment describes
 * ("already exists"), made over every comment shown.
 */
module CommentStream {
  import opened Js
  import opened CommentTree

  /** `findIndex(c => c.id === id)` over the roots: the first root with this id, or -1. */
  function RootIndex(roots: seq<Node>, id: int): (r: int)
    ensures -1 <= r < |roots|
    ensures r == -1 <==> forall i :: 0 <= i < |roots| ==> roots[i].comment.id != id
    ensures r >= 0 ==> roots[r].comment.id == id && forall i :: 0 <= i < r ==> roots[i].comment.id != id
    decreases |roots|
  {
    if roots == [] then -1
    else if roots[0].comment.id == id then 0
    else
      var r := RootIndex(roots[1..], id);
      if r == -1 then -1 else r + 1
  }

  /** The updater after its duplicate check: attach a reply to its root, or append a new root. */
  function Attach(prev: seq<Node>, c: Comment): seq<Node>
  {
    if HasParent(c) then
      var p := RootIndex(prev, c.parentId.value);
      if p != -1 then prev[p := Node(prev[p].comment, prev[p].replies + [Node(c, [])])] else prev
    else prev + [Node(c, [])]
  }

  /** The updater as written: only the roots are searched for the incoming id. */
  function MergeAsWritten(prev: seq<Node>, c: Comment): seq<Node>
  {
    if RootIndex(prev, c.id) != -1 then prev else Attach(prev, c)
  }

  /** The updater with its duplicate check made over every comment in the forest. */
  function Merge(prev: seq<Node>, c: Comment): seq<Node>
  {
    if c.id in Ids(FlatAll(prev)) then prev else Attach(prev, c)
  }

  /** `newComments.findIndex(...)` as the loop it runs. */
  method FindRootIndex(roots: seq<Node>, id: int) returns (r: int)
    ensures -1 <= r < |roots|
    ensures r == -1 <==> forall i :: 0 <= i < |roots| ==> roots[i].comment.id != id
    ensures r >= 0 ==> roots[r].comment.id == id && forall i :: 0 <= i < r ==> roots[i].comment.id != id
  {
    r := 0;
    while r < |roots| && roots[r].comment.id != id
      invariant 0 <= r <= |roots|
      invariant forall i :: 0 <= i < r ==> roots[i].comment.id != id
    {
      r := r + 1;
    }
    if r == |roots| {
      r := -1;
    }
  }

  /** Two searches with the same answer: the first root with the id is unique. */
  lemma RootIndexUnique(roots: seq<Node>, id: int, r: int)
    requires -1 <= r < |roots|
    requires r == -1 <==> forall i :: 0 <= i < |roots| ==> roots[i].comment.id != id
    requires r >= 0 ==> roots[r].comment.id == id && forall i :: 0 <= i < r ==> roots[i].comment.id != id
    ensures r == RootIndex(roots, id)
  {
    var s := RootIndex(roots, id);
    if r >= 0 && s >= 0 {
      assert !(r < s) && !(s < r);
    }
  }

  /** The part of the updater after the duplicate check, on a copy of the forest. */
  method AttachTo(prev: seq<Node>, c: Comment) returns (next: seq<Node>)
    ensures next == Attach(prev, c)
  {
    next := prev;
    if HasParent(c) {
      var parentIndex := FindRootIndex(next, c.parentId.value);
      RootIndexUnique(next, c.parentId.value, parentIndex);
      if parentIndex != -1 {
        var parent := next[parentIndex];
        next := next[parentIndex := Node(parent.comment, parent.replies + [Node(c, [])])];
      }
    } else {
      next := next + [Node(c, [])];
    }
  }

  /** The `setComments` updater of `handleNewComment`, as written. */
  method HandleNewCommentAsWritten(prev: seq<Node>, c: Comment) returns (next: seq<Node>)
    ensures next == MergeAsWritten(prev, c)
  {
    var existing := FindRootIndex(prev, c.id);
    RootIndexUnique(prev, c.id, existing);
    if existing != -1 {
      return prev;
    }
    next := AttachTo(prev, c);
  }

  /** The updater with the duplicate check over every comment shown. */
  method HandleNewComment(prev: seq<Node>, c: Comment) returns (next: seq<Node>)
    ensures next == Merge(prev, c)
  {
    if c.id in Ids(FlatAll(prev)) {
      return prev;
    }
    next := AttachTo(prev, c);
  }

  // ---------------------------------------------------------------------
  // What the updater does.
  // ---------------------------------------------------------------------

  /** A comment whose id is already a root's id leaves the forest as it was. */
  lemma RootDuplicateIgnored(prev: seq<Node>, c: Comment, i: nat)
    requires i < |prev| && prev[i].comment.id == c.id
    ensures MergeAsWritten(prev, c) == prev
    ensures Merge(prev, c) == prev
  {
    assert Ids(FlatAll(prev[..i] + prev[i..]))[|FlatAll(prev[..i])|] == c.id by {
      FlatAllConcat(prev[..i], prev[i..]);
    }
    assert prev[..i] + prev[i..] == prev;
  }

  /**
   * A reply whose parent is a root is appended at the end of the first such
   * root's replies; every other root, and the number and order of the roots,
   * stay as they were.
   */
  lemma ReplyAppended(prev: seq<Node>, c: Comment, p: nat)
    requires HasParent(c) && p < |prev| && prev[p].comment.id == c.parentId.value
    requires forall i :: 0 <= i < p ==> prev[i].comment.id != c.parentId.value
    ensures var r := Attach(prev, c);
      |r| == |prev| && r[p].comment == prev[p].comment && r[p].replies == prev[p].replies + [Node(c, [])]
      && forall i :: 0 <= i < |prev| && i != p ==> r[i] == prev[i]
  {
  }

  /** A reply whose parent is not a root is dropped. */
  lemma ReplyToNonRootDropped(prev: seq<Node>, c: Comment)
    requires HasParent(c) && forall i :: 0 <= i < |prev| ==> prev[i].comment.id != c.parentId.value
    ensures Attach(prev, c) == prev
  {
  }

  /**
   * A comment with no truthy parent id becomes the last root, with no
   * replies, whatever event it belongs to.
   */
  lemma TopLevelAppended(prev: seq<Node>, c: Comment)
    requires !HasParent(c)
    ensures Attach(prev, c) == prev + [Node(c, [])]
  {
  }

  /**
   * Re-delivering a reply through the updater as written attaches it a second
   * time, so the comment is shown twice.
   */
  lemma RedeliveredReplyShownTwice()
    ensures var root := Comment(1, 7, 3, "hello", None, "ann");
      var reply := Comment(2, 8, 3, "hi", Some(1), "bob");
      var once := MergeAsWritten([Node(root, [])], reply);
      var twice := MergeAsWritten(once, reply);
      twice != once && multiset(FlatAll(twice))[reply] == 2
  {
    var root := Comment(1, 7, 3, "hello", None, "ann");
    var reply := Comment(2, 8, 3, "hi", Some(1), "bob");
    var once := MergeAsWritten([Node(root, [])], reply);
    var twice := MergeAsWritten(once, reply);
    RedeliveryShapes(root, reply);
    FlatTwice(root, reply);
    assert multiset([root, reply, reply])[reply] == 2;
  }

  lemma FlatTwice(root: Comment, reply: Comment)
    ensures FlatAll([Node(root, [Node(reply, []), Node(reply, [])])]) == [root, reply, reply]
  {
    var pair := [Node(reply, []), Node(reply, [])];
    FlatOne(Node(reply, []));
    assert pair == [Node(reply, [])] + [Node(reply, [])];
    FlatAllConcat([Node(reply, [])], [Node(reply, [])]);
    FlatOne(Node(root, pair));
  }

  /** The forests of the scenario above: the reply once, then twice, under the root. */
  lemma RedeliveryShapes(root: Comment, reply: Comment)
    requires root == Comment(1, 7, 3, "hello", None, "ann")
    requires reply == Comment(2, 8, 3, "hi", Some(1), "bob")
    ensures MergeAsWritten([Node(root, [])], reply) == [Node(root, [Node(reply, [])])]
    ensures MergeAsWritten([Node(root, [Node(reply, [])])], reply) == [Node(root, [Node(reply, []), Node(reply, [])])]
  {
    var start := [Node(root, [])];
    assert RootIndex(start, 2) == -1 && RootIndex(start, 1) == 0;
    assert HasParent(reply);
    assert [] + [Node(reply, [])] == [Node(reply, [])];
    var once := [Node(root, [Node(reply, [])])];
    assert RootIndex(once, 2) == -1 && RootIndex(once, 1) == 0;
    assert [Node(reply, [])] + [Node(reply, [])] == [Node(reply, []), Node(reply, [])];
  }

  /** Where an attached comment lands in the flattened forest: right after its parent's earlier replies, or last. */
  lemma AttachFlat(prev: seq<Node>, c: Comment) returns (a: seq<Comment>, b: seq<Comment>)
    ensures FlatAll(prev) == a + b
    ensures FlatAll(Attach(prev, c)) == if Attach(prev, c) == prev then a + b else a + [c] + b
  {
    if HasParent(c) && RootIndex(prev, c.parentId.value) != -1 {
      a, b := AttachReplyFlat(prev, c, RootIndex(prev, c.parentId.value));
    } else if !HasParent(c) {
      FlatAllConcat(prev, [Node(c, [])]);
      assert FlatAll([Node(c, [])]) == [c];
      a, b := FlatAll(prev), [];
    } else {
      a, b := FlatAll(prev), [];
    }
  }

  lemma FlatOne(x: Node)
    ensures FlatAll([x]) == [x.comment] + FlatAll(x.replies)
  {
    assert [x][1..] == [];
  }

  /** A reply attached to the p-th root follows that root's earlier replies in the flattened forest. */
  lemma AttachReplyFlat(prev: seq<Node>, c: Comment, p: nat) returns (a: seq<Comment>, b: seq<Comment>)
    requires p < |prev|
    ensures var x := prev[p];
      FlatAll(prev) == a + b
      && FlatAll(prev[p := Node(x.comment, x.replies + [Node(c, [])])]) == a + [c] + b
  {
    var x := prev[p];
    var y := Node(x.comment, x.replies + [Node(c, [])]);
    var before, after := prev[..p], prev[p + 1..];
    assert prev == before + [x] + after;
    assert prev[p := y] == before + [y] + after;
    FlatMiddle(before, x, after);
    FlatMiddle(before, y, after);
    FlatAllConcat(x.replies, [Node(c, [])]);
    FlatOne(Node(c, []));
    a, b := FlatAll(before) + [x.comment] + FlatAll(x.replies), FlatAll(after);
  }

  /** Flattening a list around one node. */
  lemma FlatMiddle(before: seq<Node>, x: Node, after: seq<Node>)
    ensures FlatAll(before + [x] + after) == FlatAll(before) + [x.comment] + FlatAll(x.replies) + FlatAll(after)
  {
    FlatAllConcat(before + [x], after);
    FlatAllConcat(before, [x]);
    FlatOne(x);
  }

  /** No id occurs twice. */
  predicate UniqueIds(cs: seq<Comment>)
  {
    forall a, b :: 0 <= a < |cs| && 0 <= b < |cs| && cs[a].id == cs[b].id ==> a == b
  }

  lemma UniqueInsert(a: seq<Comment>, b: seq<Comment>, c: Comment)
    requires UniqueIds(a + b) && c.id !in Ids(a + b)
    ensures UniqueIds(a + [c] + b)
  {
    var f, m := a + b, a + [c] + b;
    forall k | 0 <= k < |m| && k != |a| ensures m[k].id != c.id {
      var kk := if k < |a| then k else k - 1;
      assert Ids(f)[kk] == m[k].id;
    }
    forall i, j | 0 <= i < |m| && 0 <= j < |m| && m[i].id == m[j].id ensures i == j {
      if i != |a| && j != |a| {
        var ii := if i < |a| then i else i - 1;
        var jj := if j < |a| then j else j - 1;
        assert f[ii] == m[i] && f[jj] == m[j];
      }
    }
  }

  /**
   * The corrected updater never shows a comment twice: if every comment in
   * the forest has its own id, so does every comment after a merge, and the
   * incoming comment is shown unless the merge left the forest as it was.
   */
  lemma MergeKeepsIdsUnique(prev: seq<Node>, c: Comment)
    requires UniqueIds(FlatAll(prev))
    ensures UniqueIds(FlatAll(Merge(prev, c)))
    ensures c in FlatAll(Merge(prev, c)) || Merge(prev, c) == prev
  {
    if c.id !in Ids(FlatAll(prev)) {
      var a, b := AttachFlat(prev, c);
      if Attach(prev, c) != prev {
        UniqueInsert(a, b, c);
        assert (a + [c] + b)[|a|] == c;
      }
    }
  }

  /** Delivering the same comment twice to the corrected updater changes nothing the second time. */
  lemma MergeIdempotent(prev: seq<Node>, c: Comment)
    ensures Merge(Merge(prev, c), c) == Merge(prev, c)
  {
    if c.id !in Ids(FlatAll(prev)) {
      var a, b := AttachFlat(prev, c);
      var r := Attach(prev, c);
      if r != prev {
        assert FlatAll(r)[|a|] == c;
        assert Ids(FlatAll(r))[|a|] == c.id;
      }
    }
  }
}
