/**
 * The comment thread of an event (src/components/ui/chatui.tsx): the comment
 * record, and the forest the component builds from the flat list the server
 * returns (`fetchComments`).
 *
 * The build fills a JavaScript `Map` from id to a fresh node with no replies,
 * keeping the first comment seen for each id, and then walks that map in key
 * order: a comment whose `parentId` is truthy and present in the map is pushed
 * onto the parent's `replies` and deleted from the map.  What is left in the
 * map, in insertion order, is the forest.
 *
 * The build's outcome depends on the order of the walk, so the specification
 * below is stated over the first occurrences `d` in input order (which is the
 * map's key order):
 *   - `Moved(d, i)`   the i-th comment is moved into its parent during the walk;
 *   - `ChildIndices`  the comments pushed onto a node, in push order;
 *   - `WellNested`    a node holds exactly the nodes of its pushed children;
 *   - `Reaches`, `Terminal`, `Vanishes`  the chain of parents a comment is
 *     carried along, and whether that chain ends in a comment that moved into
 *     itself (and so left the forest).
 */
module CommentTree {
  import opened Js

  /** A comment as the server sends it (chatui.tsx, the `Comment` interface). */
  datatype Comment = Comment(
    id: int,
    userId: int,
    eventId: int,
    commentText: string,
    parentId: Option<int>,
    username: string)

  /** A comment with the replies the component has attached to it. */
  datatype Node = Node(comment: Comment, replies: seq<Node>)

  /** `comment.parentId` is truthy: present and not 0. */
  predicate HasParent(c: Comment)
  {
    c.parentId.Some? && c.parentId.value != 0
  }

  function Ids(cs: seq<Comment>): (r: seq<int>)
    ensures |r| == |cs| && forall i :: 0 <= i < |cs| ==> r[i] == cs[i].id
  {
    seq(|cs|, i requires 0 <= i < |cs| => cs[i].id)
  }

  function Comments(ns: seq<Node>): (r: seq<Comment>)
    ensures |r| == |ns| && forall i :: 0 <= i < |ns| ==> r[i] == ns[i].comment
  {
    seq(|ns|, i requires 0 <= i < |ns| => ns[i].comment)
  }

  /** The comments of `d` at the positions `ix`, in that order. */
  function Select(d: seq<Comment>, ix: seq<int>): (r: seq<Comment>)
    requires forall i :: 0 <= i < |ix| ==> 0 <= ix[i] < |d|
    ensures |r| == |ix| && forall i :: 0 <= i < |ix| ==> r[i] == d[ix[i]]
  {
    seq(|ix|, i requires 0 <= i < |ix| => d[ix[i]])
  }

  predicate DistinctIds(d: seq<Comment>)
  {
    forall a, b :: 0 <= a < |d| && 0 <= b < |d| && d[a].id == d[b].id ==> a == b
  }

  predicate Increasing(ix: seq<int>)
  {
    forall a, b :: 0 <= a < b < |ix| ==> ix[a] < ix[b]
  }

  /** The position of the comment with this id. */
  ghost function IdIndex(d: seq<Comment>, id: int): (r: nat)
    requires id in Ids(d)
    ensures r < |d| && d[r].id == id
  {
    var k :| 0 <= k < |d| && Ids(d)[k] == id; k
  }

  /** The first comment for each id, in input order (the first `forEach`). */
  function FirstOccurrences(s: seq<Comment>): seq<Comment>
    decreases |s|
  {
    if s == [] then []
    else
      var init := s[..|s| - 1];
      FirstOccurrences(init) + (if s[|s| - 1].id in Ids(init) then [] else [s[|s| - 1]])
  }

  // ---------------------------------------------------------------------
  // The walk over the map, stated over the first occurrences `d`.
  // ---------------------------------------------------------------------

  /**
   * The i-th comment is moved during the walk: its parent id is truthy and the
   * parent is still in the map when the walk reaches it, that is, the parent
   * comes at or after it, or comes before it and was not moved itself.
   */
  ghost predicate Moved(d: seq<Comment>, i: nat)
    requires i < |d|
    decreases i
  {
    HasParent(d[i]) && d[i].parentId.value in Ids(d)
    && var q := IdIndex(d, d[i].parentId.value); q >= i || !Moved(d, q)
  }

  /** The position of the parent a moved comment was pushed onto. */
  ghost function Par(d: seq<Comment>, i: nat): (r: nat)
    requires i < |d| && Moved(d, i)
    ensures r < |d| && d[r].id == d[i].parentId.value
  {
    IdIndex(d, d[i].parentId.value)
  }

  ghost predicate IsChildOf(d: seq<Comment>, m: nat, k: nat)
    requires m < |d| && k < |d|
  {
    Moved(d, m) && d[m].parentId.value == d[k].id
  }

  /** The positions among the first `m` whose comments are pushed onto the k-th, in push order. */
  ghost function ChildIndices(d: seq<Comment>, k: nat, m: nat): (r: seq<int>)
    requires k < |d| && m <= |d|
    ensures forall i :: 0 <= i < |r| ==> 0 <= r[i] < m
    ensures forall x :: x in r <==> 0 <= x < m && IsChildOf(d, x, k)
    ensures Increasing(r)
    decreases m
  {
    if m == 0 then []
    else
      var prev := ChildIndices(d, k, m - 1);
      var last := if IsChildOf(d, m - 1, k) then [m - 1] else [];
      assert forall x :: x in prev + last <==> x in prev || x in last;
      prev + last
  }

  /** The positions of the comments left in the map after the walk: the roots. */
  ghost function RootIndices(d: seq<Comment>, m: nat): (r: seq<int>)
    requires m <= |d|
    ensures forall i :: 0 <= i < |r| ==> 0 <= r[i] < m
    ensures forall x :: x in r <==> 0 <= x < m && !Moved(d, x)
    ensures Increasing(r)
    decreases m
  {
    if m == 0 then []
    else
      var prev := RootIndices(d, m - 1);
      var last := if Moved(d, m - 1) then [] else [m - 1];
      assert forall x :: x in prev + last <==> x in prev || x in last;
      prev + last
  }

  ghost function Roots(d: seq<Comment>): seq<Comment>
  {
    Select(d, RootIndices(d, |d|))
  }

  /** The node's comment is one of `d`. */
  ghost predicate Placed(d: seq<Comment>, t: Node)
  {
    t.comment.id in Ids(d) && d[IdIndex(d, t.comment.id)] == t.comment
  }

  ghost function Idx(d: seq<Comment>, t: Node): (r: nat)
    requires Placed(d, t)
    ensures r < |d| && d[r] == t.comment
  {
    IdIndex(d, t.comment.id)
  }

  /** A node holds, in push order, exactly the nodes of the comments pushed onto it, recursively. */
  ghost predicate WellNested(d: seq<Comment>, t: Node)
    decreases t
  {
    Placed(d, t)
    && Comments(t.replies) == Select(d, ChildIndices(d, Idx(d, t), |d|))
    && forall r :: r in t.replies ==> WellNested(d, r)
  }

  /** What the walk promises about a forest built from `data`. */
  ghost predicate IsForestOf(data: seq<Comment>, forest: seq<Node>)
  {
    var d := FirstOccurrences(data);
    Comments(forest) == Roots(d) && forall t :: t in forest ==> WellNested(d, t)
  }

  // ---------------------------------------------------------------------
  // The build itself.
  // ---------------------------------------------------------------------

  /** The map entry of the k-th comment after the walk has visited the first `i` keys. */
  ghost predicate EntryAt(d: seq<Comment>, t: Node, k: nat, i: nat)
    requires k < |d| && i <= |d|
  {
    t.comment == d[k]
    && Comments(t.replies) == Select(d, ChildIndices(d, k, i))
    && forall r :: r in t.replies ==> WellNested(d, r)
  }

  /** The map after the walk has visited the first `i` keys. */
  ghost predicate MapAt(d: seq<Comment>, entries: map<int, Node>, i: nat)
    requires i <= |d|
  {
    KeysOf(d, entries) && MembersAt(d, entries, i) && EntriesAt(d, entries, i)
  }

  /** Only ids of comments are keys. */
  ghost predicate KeysOf(d: seq<Comment>, entries: map<int, Node>)
  {
    forall id :: id in entries ==> id in Ids(d)
  }

  /** A comment is still in the map when it has not been visited yet or was not moved. */
  ghost predicate MembersAt(d: seq<Comment>, entries: map<int, Node>, i: nat)
    requires i <= |d|
  {
    forall k :: 0 <= k < |d| ==> (d[k].id in entries <==> k >= i || !Moved(d, k))
  }

  ghost predicate EntriesAt(d: seq<Comment>, entries: map<int, Node>, i: nat)
    requires i <= |d|
  {
    forall k :: 0 <= k < |d| && d[k].id in entries ==> EntryAt(d, entries[d[k].id], k, i)
  }

  // ---------------------------------------------------------------------
  // Lemmas behind the build.
  // ---------------------------------------------------------------------

  /** One more comment seen by the first `forEach`. */
  lemma FirstOccurrencesStep(s: seq<Comment>, i: nat)
    requires i < |s|
    ensures FirstOccurrences(s[..i + 1])
      == FirstOccurrences(s[..i]) + (if s[i].id in Ids(s[..i]) then [] else [s[i]])
    ensures Ids(s[..i + 1]) == Ids(s[..i]) + [s[i].id]
  {
    assert s[..i + 1][..i] == s[..i];
  }

  /** The first `forEach` keeps every id of the input, and no other. */
  lemma {:induction false} FirstOccurrencesIds(s: seq<Comment>)
    ensures forall id :: id in Ids(FirstOccurrences(s)) <==> id in Ids(s)
    decreases |s|
  {
    if s != [] {
      var n := |s| - 1;
      FirstOccurrencesStep(s, n);
      assert s[..n + 1] == s;
      FirstOccurrencesIds(s[..n]);
      var f := FirstOccurrences(s[..n]);
      if s[n].id !in Ids(s[..n]) {
        assert Ids(f + [s[n]]) == Ids(f) + [s[n].id];
      } else {
        assert FirstOccurrences(s) == f;
      }
      forall id ensures id in Ids(FirstOccurrences(s)) <==> id in Ids(s) {
        assert id in Ids(s) <==> id in Ids(s[..n]) || id == s[n].id;
      }
    }
  }

  /** The first `forEach` keeps at most one comment per id. */
  lemma {:induction false} FirstOccurrencesDistinct(s: seq<Comment>)
    ensures DistinctIds(FirstOccurrences(s))
    decreases |s|
  {
    if s != [] {
      var n := |s| - 1;
      FirstOccurrencesStep(s, n);
      assert s[..n + 1] == s;
      FirstOccurrencesDistinct(s[..n]);
      FirstOccurrencesIds(s[..n]);
      var f := FirstOccurrences(s[..n]);
      if s[n].id !in Ids(s[..n]) {
        forall a | 0 <= a < |f| ensures f[a].id != s[n].id {
          assert Ids(f)[a] == f[a].id;
        }
      }
    }
  }

  /** The i-th comment of `s` is `c`, and no comment before it has its id. */
  ghost predicate FirstAt(s: seq<Comment>, i: int, c: Comment)
  {
    0 <= i < |s| && s[i] == c && forall j :: 0 <= j < i ==> s[j].id != c.id
  }

  /** The first `forEach` only leaves comments out: the kept ones come in the input's own order. */
  lemma {:induction false} FirstOccurrencesInOrder(s: seq<Comment>)
    ensures Sublist(FirstOccurrences(s), s)
    decreases |s|
  {
    if s != [] {
      var n := |s| - 1;
      var init := s[..n];
      assert s == init + [s[n]];
      FirstOccurrencesStep(s, n);
      assert s[..n + 1] == s;
      FirstOccurrencesInOrder(init);
      var f := FirstOccurrences(init);
      if s[n].id in Ids(init) {
        assert FirstOccurrences(s) == f + [] == f;
        SublistExtend(f, init, s[n]);
      } else {
        assert FirstOccurrences(s) == f + [s[n]];
        SublistSnoc(f, init, s[n]);
      }
    }
  }

  /** Everything the first `forEach` keeps is a comment of the input that no earlier comment shares an id with. */
  lemma {:induction false} FirstOccurrencesSound(s: seq<Comment>)
    ensures forall c :: c in FirstOccurrences(s) ==> exists i :: FirstAt(s, i, c)
    decreases |s|
  {
    if s != [] {
      var n := |s| - 1;
      var init, x := s[..n], s[n];
      FirstOccurrencesStep(s, n);
      assert s[..n + 1] == s;
      FirstOccurrencesSound(init);
      var f := FirstOccurrences(init);
      forall c | c in FirstOccurrences(s)
        ensures exists i :: FirstAt(s, i, c)
      {
        if c in f {
          var i :| FirstAt(init, i, c);
          assert FirstAt(s, i, c);
        } else {
          assert c == x && x.id !in Ids(init);
          forall j | 0 <= j < n ensures s[j].id != c.id {
            assert Ids(init)[j] == s[j].id;
          }
          assert FirstAt(s, n, c);
        }
      }
    }
  }

  /** The first `forEach` keeps every comment that no earlier comment shares an id with. */
  lemma {:induction false} FirstOccurrencesComplete(s: seq<Comment>)
    ensures forall i :: 0 <= i < |s| && (forall j :: 0 <= j < i ==> s[j].id != s[i].id) ==>
      s[i] in FirstOccurrences(s)
    decreases |s|
  {
    if s != [] {
      var n := |s| - 1;
      var init, x := s[..n], s[n];
      FirstOccurrencesStep(s, n);
      assert s[..n + 1] == s;
      FirstOccurrencesComplete(init);
      forall i | 0 <= i < |s| && (forall j :: 0 <= j < i ==> s[j].id != s[i].id)
        ensures s[i] in FirstOccurrences(s)
      {
        if i < n {
          assert s[i] == init[i];
        }
      }
    }
  }

  /** In a list with distinct ids, the position found for an id is the position holding it. */
  lemma IdIndexOf(d: seq<Comment>, k: nat)
    requires DistinctIds(d) && k < |d|
    ensures d[k].id in Ids(d) && IdIndex(d, d[k].id) == k
  {
    assert Ids(d)[k] == d[k].id;
  }

  /**
   * A comment moved onto another one receives no replies after its own visit:
   * whatever names it as parent later finds it gone from the map.
   */
  lemma {:induction false} FrozenChildren(d: seq<Comment>, m: nat, n: nat)
    requires DistinctIds(d) && m < |d| && Moved(d, m) && Par(d, m) != m
    requires m <= n <= |d|
    ensures ChildIndices(d, m, n) == ChildIndices(d, m, m)
    decreases n
  {
    if n > m {
      FrozenChildren(d, m, n - 1);
      IdIndexOf(d, m);
      assert !IsChildOf(d, n - 1, m);
    }
  }

  /** The visited comment is moved exactly when it has a parent still in the map. */
  lemma MovedWhenParentPresent(d: seq<Comment>, entries: map<int, Node>, i: nat)
    requires DistinctIds(d) && i < |d| && KeysOf(d, entries) && MembersAt(d, entries, i)
    ensures Moved(d, i) <==> HasParent(d[i]) && d[i].parentId.value in entries
  {
    if HasParent(d[i]) && d[i].parentId.value in entries {
      IdIndexOf(d, IdIndex(d, d[i].parentId.value));
    }
  }

  /** Visiting a key whose comment has a parent in the map: it is moved. */
  lemma MoveStep(d: seq<Comment>, entries: map<int, Node>, i: nat)
    requires DistinctIds(d) && i < |d| && MapAt(d, entries, i)
    requires HasParent(d[i]) && d[i].parentId.value in entries
    ensures d[i].id in entries
    ensures var p := d[i].parentId.value;
      MapAt(d, entries[p := Node(entries[p].comment, entries[p].replies + [entries[d[i].id]])] - {d[i].id}, i + 1)
  {
    var k, p := d[i].id, d[i].parentId.value;
    assert k in entries;
    MovedWhenParentPresent(d, entries, i);
    var node, parent := entries[k], entries[p];
    var e := entries[p := Node(parent.comment, parent.replies + [node])] - {k};
    MoveMembers(d, entries, i);
    MoveEntries(d, entries, i);
    assert KeysOf(d, e);
  }

  lemma MoveMembers(d: seq<Comment>, entries: map<int, Node>, i: nat)
    requires DistinctIds(d) && i < |d| && KeysOf(d, entries) && MembersAt(d, entries, i) && Moved(d, i)
    requires d[i].parentId.value in entries
    ensures var p, k := d[i].parentId.value, d[i].id;
      MembersAt(d, entries[p := Node(entries[p].comment, entries[p].replies + [entries[k]])] - {k}, i + 1)
  {
    forall x | 0 <= x < |d|
      ensures (d[x].id in entries && d[x].id != d[i].id) <==> x >= i + 1 || !Moved(d, x)
    {
      IdIndexOf(d, x);
    }
  }

  lemma MoveEntries(d: seq<Comment>, entries: map<int, Node>, i: nat)
    requires DistinctIds(d) && i < |d| && KeysOf(d, entries) && MembersAt(d, entries, i)
    requires EntriesAt(d, entries, i) && Moved(d, i) && d[i].parentId.value in entries
    ensures d[i].id in entries
    ensures var p, k := d[i].parentId.value, d[i].id;
      EntriesAt(d, entries[p := Node(entries[p].comment, entries[p].replies + [entries[k]])] - {k}, i + 1)
  {
    var k, p := d[i].id, d[i].parentId.value;
    var q := Par(d, i);
    IdIndexOf(d, q);
    IdIndexOf(d, i);
    var node, parent := entries[k], entries[p];
    assert EntryAt(d, parent, q, i);
    var e := entries[p := Node(parent.comment, parent.replies + [node])] - {k};
    if q != i {
      assert EntryAt(d, node, i, i);
      FrozenChildren(d, i, |d|);
      assert WellNested(d, node);
      ParentGains(d, parent, node, q, i);
    }
    forall x | 0 <= x < |d| && d[x].id in e
      ensures EntryAt(d, e[d[x].id], x, i + 1)
    {
      IdIndexOf(d, x);
      if x != q {
        assert EntryAt(d, entries[d[x].id], x, i);
        OthersUnchanged(d, x, i);
      }
    }
  }

  /** The parent of the visited comment gains it as its last reply. */
  lemma ParentGains(d: seq<Comment>, parent: Node, node: Node, q: nat, i: nat)
    requires DistinctIds(d) && q < |d| && i < |d| && Moved(d, i) && Par(d, i) == q
    requires EntryAt(d, parent, q, i) && WellNested(d, node) && node.comment == d[i]
    ensures EntryAt(d, Node(parent.comment, parent.replies + [node]), q, i + 1)
  {
    var c := ChildIndices(d, q, i);
    assert ChildIndices(d, q, i + 1) == c + [i];
    CommentsSnoc(parent.replies, node);
    SelectSnoc(d, c, i);
  }

  /** No comment other than the parent receives the visited comment. */
  lemma OthersUnchanged(d: seq<Comment>, x: nat, i: nat)
    requires DistinctIds(d) && x < |d| && i < |d|
    requires !Moved(d, i) || d[i].parentId.value != d[x].id
    ensures ChildIndices(d, x, i + 1) == ChildIndices(d, x, i)
  {
  }

  /** Visiting a key whose comment has no parent in the map: nothing changes. */
  lemma StayStep(d: seq<Comment>, entries: map<int, Node>, i: nat)
    requires DistinctIds(d) && i < |d| && MapAt(d, entries, i)
    requires !(HasParent(d[i]) && d[i].parentId.value in entries)
    ensures MapAt(d, entries, i + 1)
  {
    MovedWhenParentPresent(d, entries, i);
    assert MembersAt(d, entries, i + 1);
    forall x | 0 <= x < |d| && d[x].id in entries
      ensures EntryAt(d, entries[d[x].id], x, i + 1)
    {
      assert EntryAt(d, entries[d[x].id], x, i);
      OthersUnchanged(d, x, i);
    }
  }

  /** An entry that has received all its replies is a well-nested node. */
  lemma CompleteEntry(d: seq<Comment>, t: Node, k: nat)
    requires DistinctIds(d) && k < |d| && EntryAt(d, t, k, |d|)
    ensures WellNested(d, t) && Idx(d, t) == k
  {
    IdIndexOf(d, k);
  }

  /** Appending the node of the i-th comment to a forest of the roots before it. */
  lemma AppendRoot(d: seq<Comment>, forest: seq<Node>, t: Node, i: nat)
    requires i < |d| && !Moved(d, i) && t.comment == d[i]
    requires Comments(forest) == Select(d, RootIndices(d, i))
    ensures Comments(forest + [t]) == Select(d, RootIndices(d, i + 1))
  {
    var r := RootIndices(d, i);
    assert RootIndices(d, i + 1) == r + [i];
    CommentsSnoc(forest, t);
    SelectSnoc(d, r, i);
  }

  lemma CommentsSnoc(ns: seq<Node>, t: Node)
    ensures Comments(ns + [t]) == Comments(ns) + [t.comment]
  {
    assert forall k :: 0 <= k < |ns| ==> (ns + [t])[k] == ns[k];
  }

  lemma SelectSnoc(d: seq<Comment>, ix: seq<int>, x: int)
    requires forall k :: 0 <= k < |ix| ==> 0 <= ix[k] < |d|
    requires 0 <= x < |d|
    ensures Select(d, ix + [x]) == Select(d, ix) + [d[x]]
  {
    assert forall k :: 0 <= k < |ix| ==> (ix + [x])[k] == ix[k];
  }

  /** After the walk, the entry of each comment left in the map is a complete node of the forest. */
  lemma RootStep(d: seq<Comment>, entries: map<int, Node>, forest: seq<Node>, i: nat)
    requires DistinctIds(d) && i < |d| && MapAt(d, entries, |d|)
    requires Comments(forest) == Select(d, RootIndices(d, i))
    requires forall t :: t in forest ==> WellNested(d, t)
    ensures var f := if d[i].id in entries then forest + [entries[d[i].id]] else forest;
      Comments(f) == Select(d, RootIndices(d, i + 1)) && forall t :: t in f ==> WellNested(d, t)
  {
    if d[i].id in entries {
      var t := entries[d[i].id];
      CompleteEntry(d, t, i);
      AppendRoot(d, forest, t, i);
    } else {
      assert RootIndices(d, i + 1) == RootIndices(d, i);
    }
  }

  /** `data.forEach`: the map's keys in insertion order, each first occurrence stored without replies. */
  method FillMap(data: seq<Comment>) returns (keys: seq<int>, entries: map<int, Node>)
    ensures keys == Ids(FirstOccurrences(data))
    ensures forall id :: id in entries <==> id in Ids(data)
    ensures forall k :: 0 <= k < |keys| ==>
      var c := FirstOccurrences(data)[k]; c.id in entries && entries[c.id] == Node(c, [])
  {
    keys := [];
    entries := map[];
    for i := 0 to |data|
      invariant keys == Ids(FirstOccurrences(data[..i]))
      invariant forall id :: id in entries <==> id in Ids(data[..i])
      invariant forall k :: 0 <= k < |keys| ==>
        var c := FirstOccurrences(data[..i])[k]; c.id in entries && entries[c.id] == Node(c, [])
    {
      var c := data[i];
      FirstOccurrencesStep(data, i);
      if c.id !in entries {
        entries := entries[c.id := Node(c, [])];
        keys := keys + [c.id];
      }
    }
    assert data[..|data|] == data;
  }

  /** One visit of `commentMap.forEach`: a comment whose parent is still in the map is pushed onto its replies and deleted. */
  function Visit(entries: map<int, Node>, k: int): map<int, Node>
  {
    if k in entries && HasParent(entries[k].comment) && entries[k].comment.parentId.value in entries then
      var p := entries[k].comment.parentId.value;
      entries[p := Node(entries[p].comment, entries[p].replies + [entries[k]])] - {k}
    else entries
  }

  lemma VisitStep(d: seq<Comment>, entries: map<int, Node>, i: nat)
    requires DistinctIds(d) && i < |d| && MapAt(d, entries, i)
    ensures MapAt(d, Visit(entries, d[i].id), i + 1)
  {
    assert d[i].id in entries;
    assert entries[d[i].id].comment == d[i];
    if HasParent(d[i]) && d[i].parentId.value in entries {
      MoveStep(d, entries, i);
    } else {
      StayStep(d, entries, i);
    }
  }

  /**
   * `commentMap.forEach`: every key is visited in insertion order, as only
   * the visited key is ever deleted.
   */
  method NestReplies(ghost d: seq<Comment>, keys: seq<int>, start: map<int, Node>) returns (entries: map<int, Node>)
    requires DistinctIds(d) && keys == Ids(d) && MapAt(d, start, 0)
    ensures MapAt(d, entries, |d|)
  {
    entries := start;
    assert |keys| == |d|;
    for i := 0 to |keys|
      invariant i <= |d| && MapAt(d, entries, i)
    {
      assert keys[i] == d[i].id;
      VisitStep(d, entries, i);
      entries := Visit(entries, keys[i]);
    }
  }

  /** `Array.from(commentMap.values())`: the remaining entries in key order. */
  method CollectRoots(ghost d: seq<Comment>, keys: seq<int>, entries: map<int, Node>) returns (forest: seq<Node>)
    requires DistinctIds(d) && keys == Ids(d) && MapAt(d, entries, |d|)
    ensures Comments(forest) == Roots(d)
    ensures forall t :: t in forest ==> WellNested(d, t)
  {
    forest := [];
    for i := 0 to |keys|
      invariant Comments(forest) == Select(d, RootIndices(d, i))
      invariant forall t :: t in forest ==> WellNested(d, t)
    {
      var k := keys[i];
      RootStep(d, entries, forest, i);
      if k in entries {
        forest := forest + [entries[k]];
      }
    }
  }

  /**
   * `fetchComments` after a successful response: the forest holds the roots,
   * in first-occurrence order, and every node holds exactly the nodes pushed
   * onto it.
   */
  method BuildForest(data: seq<Comment>) returns (forest: seq<Node>)
    ensures Comments(forest) == Roots(FirstOccurrences(data))
    ensures forall t :: t in forest ==> WellNested(FirstOccurrences(data), t)
  {
    var keys, entries := FillMap(data);
    ghost var d := FirstOccurrences(data);
    FirstOccurrencesDistinct(data);
    FirstOccurrencesIds(data);
    entries := NestReplies(d, keys, entries);
    forest := CollectRoots(d, keys, entries);
  }

  // ---------------------------------------------------------------------
  // Where each comment ends up.
  // ---------------------------------------------------------------------

  /** Every comment of a forest and of all its replies, depth first. */
  function FlatAll(ns: seq<Node>): seq<Comment>
    decreases ns
  {
    if ns == [] then [] else [ns[0].comment] + FlatAll(ns[0].replies) + FlatAll(ns[1..])
  }

  lemma {:induction false} FlatAllConcat(a: seq<Node>, b: seq<Node>)
    ensures FlatAll(a + b) == FlatAll(a) + FlatAll(b)
    decreases a
  {
    if a != [] {
      assert (a + b)[0] == a[0] && (a + b)[1..] == a[1..] + b;
      FlatAllConcat(a[1..], b);
      assert FlatAll(a + b) == [a[0].comment] + FlatAll(a[0].replies) + FlatAll(a[1..] + b);
      assert FlatAll(a) == [a[0].comment] + FlatAll(a[0].replies) + FlatAll(a[1..]);
    } else {
      assert a + b == b;
    }
  }

  ghost function Measure(d: seq<Comment>, j: nat): nat
    requires j < |d|
  {
    if Moved(d, j) then |d| - j + 1 else 0
  }

  /** A moved comment's parent is either a comment still ahead of it in the walk or one that stays in the map. */
  lemma ParStep(d: seq<Comment>, j: nat)
    requires j < |d| && Moved(d, j) && Par(d, j) != j
    ensures Measure(d, Par(d, j)) < Measure(d, j)
    ensures Moved(d, Par(d, j)) ==> Par(d, j) > j
  {
  }

  /**
   * The k-th comment is on the chain of parents the j-th is carried along:
   * each step is a move onto a different comment.
   */
  ghost predicate Reaches(d: seq<Comment>, j: nat, k: nat)
    requires j < |d| && k < |d|
    decreases Measure(d, j)
  {
    j == k || (Moved(d, j) && Par(d, j) != j && (ParStep(d, j); Reaches(d, Par(d, j), k)))
  }

  /** The last comment on the chain: one that stays in the map, or one that moved onto itself. */
  ghost function Terminal(d: seq<Comment>, j: nat): (r: nat)
    requires j < |d|
    ensures r < |d|
    decreases Measure(d, j)
  {
    if Moved(d, j) && Par(d, j) != j then ParStep(d, j); Terminal(d, Par(d, j)) else j
  }

  /** The j-th comment is lost: the chain it is carried along ends in a comment that moved onto itself. */
  ghost predicate Vanishes(d: seq<Comment>, j: nat)
    requires j < |d|
  {
    Moved(d, Terminal(d, j))
  }

  /** Each step of a chain goes forward in the walk, or ends in a comment that stays. */
  lemma {:induction false} ReachesForward(d: seq<Comment>, a: nat, b: nat)
    requires a < |d| && b < |d| && Reaches(d, a, b)
    ensures a == b || (Moved(d, a) && (b > a || !Moved(d, b)))
    decreases Measure(d, a)
  {
    if a != b {
      var q := Par(d, a);
      ParStep(d, a);
      if q != b {
        ReachesForward(d, q, b);
      }
    }
  }

  lemma NoCycle(d: seq<Comment>, a: nat, b: nat)
    requires a < |d| && b < |d| && Reaches(d, a, b) && Reaches(d, b, a)
    ensures a == b
  {
    ReachesForward(d, a, b);
    ReachesForward(d, b, a);
  }

  lemma {:induction false} ReachesTrans(d: seq<Comment>, a: nat, b: nat, c: nat)
    requires a < |d| && b < |d| && c < |d| && Reaches(d, a, b) && Reaches(d, b, c)
    ensures Reaches(d, a, c)
    decreases Measure(d, a)
  {
    if a != b {
      ParStep(d, a);
      ReachesTrans(d, Par(d, a), b, c);
    }
  }

  /** Two comments on the same chain are on a chain with each other. */
  lemma {:induction false} ReachesLinear(d: seq<Comment>, j: nat, a: nat, b: nat)
    requires j < |d| && a < |d| && b < |d| && Reaches(d, j, a) && Reaches(d, j, b)
    ensures Reaches(d, a, b) || Reaches(d, b, a)
    decreases Measure(d, j)
  {
    if j != a && j != b {
      ParStep(d, j);
      ReachesLinear(d, Par(d, j), a, b);
    }
  }

  /** A chain that reaches the k-th comment passes through a comment moved onto it. */
  lemma {:induction false} ChainChild(d: seq<Comment>, j: nat, k: nat) returns (m: nat)
    requires j < |d| && k < |d| && Reaches(d, j, k) && j != k
    ensures m < |d| && Reaches(d, j, m) && Moved(d, m) && Par(d, m) == k && m != k
    decreases Measure(d, j)
  {
    var q := Par(d, j);
    ParStep(d, j);
    if q == k {
      m := j;
    } else {
      m := ChainChild(d, q, k);
    }
  }

  lemma {:induction false} TerminalReached(d: seq<Comment>, j: nat)
    requires j < |d|
    ensures Reaches(d, j, Terminal(d, j))
    ensures var t := Terminal(d, j); !(Moved(d, t) && Par(d, t) != t)
    decreases Measure(d, j)
  {
    if Moved(d, j) && Par(d, j) != j {
      ParStep(d, j);
      TerminalReached(d, Par(d, j));
    }
  }

  /** Every comment on a chain ends in the same place. */
  lemma {:induction false} TerminalShared(d: seq<Comment>, j: nat, x: nat)
    requires j < |d| && x < |d| && Reaches(d, j, x)
    ensures Terminal(d, x) == Terminal(d, j)
    decreases Measure(d, j)
  {
    if j != x {
      ParStep(d, j);
      TerminalShared(d, Par(d, j), x);
    }
  }

  /** A node of a well-nested tree is never a comment that moved onto itself. */
  lemma {:induction false} NoSelfLoop(d: seq<Comment>, t: Node)
    requires DistinctIds(d) && WellNested(d, t)
    ensures var k := Idx(d, t); !(Moved(d, k) && Par(d, k) == k)
    decreases t
  {
    var k := Idx(d, t);
    if Moved(d, k) && Par(d, k) == k {
      var c := ChildIndices(d, k, |d|);
      assert k in c;
      var i :| 0 <= i < |c| && c[i] == k;
      var r := t.replies[i];
      assert r.comment == d[k];
      IdIndexOf(d, k);
      NoSelfLoop(d, r);
    }
  }

  /** The node's comment is on the chain of the j-th comment. */
  ghost predicate Hit(d: seq<Comment>, j: nat, t: Node)
    requires j < |d|
  {
    Placed(d, t) && Reaches(d, j, Idx(d, t))
  }

  ghost predicate AnyHit(d: seq<Comment>, j: nat, ns: seq<Node>)
    requires j < |d|
  {
    exists i :: 0 <= i < |ns| && Hit(d, j, ns[i])
  }

  ghost predicate AtMostOneHit(d: seq<Comment>, j: nat, ns: seq<Node>)
    requires j < |d|
  {
    forall a, b :: 0 <= a < |ns| && 0 <= b < |ns| && Hit(d, j, ns[a]) && Hit(d, j, ns[b]) ==> a == b
  }

  /** In a well-nested node, the m-th reply is the node of the m-th comment pushed onto it. */
  lemma ReplyIndex(d: seq<Comment>, t: Node, i: nat)
    requires DistinctIds(d) && WellNested(d, t) && i < |t.replies|
    ensures var c := ChildIndices(d, Idx(d, t), |d|);
      |c| == |t.replies| && WellNested(d, t.replies[i]) && Idx(d, t.replies[i]) == c[i]
      && IsChildOf(d, c[i], Idx(d, t))
  {
    var c := ChildIndices(d, Idx(d, t), |d|);
    assert Comments(t.replies)[i] == d[c[i]];
    IdIndexOf(d, c[i]);
  }

  /** A reply reaches the node it is in. */
  lemma ChildReaches(d: seq<Comment>, m: nat, k: nat)
    requires DistinctIds(d) && m < |d| && k < |d| && IsChildOf(d, m, k)
    requires !(Moved(d, k) && Par(d, k) == k)
    ensures Par(d, m) == k && m != k && Reaches(d, m, k)
  {
    IdIndexOf(d, k);
  }

  /** Two replies of the same node are on no common chain. */
  lemma SiblingsApart(d: seq<Comment>, k: nat, a: nat, b: nat)
    requires DistinctIds(d) && k < |d| && a < |d| && b < |d|
    requires !(Moved(d, k) && Par(d, k) == k)
    requires IsChildOf(d, a, k) && IsChildOf(d, b, k) && Reaches(d, a, b)
    ensures a == b
  {
    ChildReaches(d, a, k);
    ChildReaches(d, b, k);
    if a != b {
      NoCycle(d, k, b);
    }
  }

  /** The chain of the j-th comment runs through at most one reply of a node. */
  lemma RepliesAtMostOne(d: seq<Comment>, t: Node, j: nat)
    requires DistinctIds(d) && j < |d| && WellNested(d, t)
    ensures AtMostOneHit(d, j, t.replies)
  {
    var k, rs := Idx(d, t), t.replies;
    var c := ChildIndices(d, k, |d|);
    NoSelfLoop(d, t);
    forall a, b | 0 <= a < |rs| && 0 <= b < |rs| && Hit(d, j, rs[a]) && Hit(d, j, rs[b])
      ensures a == b
    {
      ReplyIndex(d, t, a);
      ReplyIndex(d, t, b);
      ReachesLinear(d, j, c[a], c[b]);
      if Reaches(d, c[a], c[b]) {
        SiblingsApart(d, k, c[a], c[b]);
      } else {
        SiblingsApart(d, k, c[b], c[a]);
      }
    }
  }

  /** A chain through a reply goes on to the node, from below. */
  lemma ReplyHitReachesNode(d: seq<Comment>, t: Node, j: nat, i: nat)
    requires DistinctIds(d) && j < |d| && WellNested(d, t) && i < |t.replies| && Hit(d, j, t.replies[i])
    ensures j != Idx(d, t) && Reaches(d, j, Idx(d, t))
  {
    var k := Idx(d, t);
    var c := ChildIndices(d, k, |d|);
    NoSelfLoop(d, t);
    ReplyIndex(d, t, i);
    ChildReaches(d, c[i], k);
    ReachesTrans(d, j, c[i], k);
    if j == k {
      NoCycle(d, k, c[i]);
    }
  }

  /** A chain that reaches the node from below runs through one of its replies. */
  lemma NodeReachedThroughReply(d: seq<Comment>, t: Node, j: nat)
    requires DistinctIds(d) && j < |d| && WellNested(d, t)
    requires j != Idx(d, t) && Reaches(d, j, Idx(d, t))
    ensures AnyHit(d, j, t.replies)
  {
    var k, rs := Idx(d, t), t.replies;
    var c := ChildIndices(d, k, |d|);
    var m := ChainChild(d, j, k);
    IdIndexOf(d, k);
    assert IsChildOf(d, m, k);
    var i :| 0 <= i < |c| && c[i] == m;
    ReplyIndex(d, t, i);
    assert Hit(d, j, rs[i]);
  }

  /** The chain of the j-th comment runs through at most one reply of a node, and through one exactly when it runs through the node from below. */
  lemma RepliesHits(d: seq<Comment>, t: Node, j: nat)
    requires DistinctIds(d) && j < |d| && WellNested(d, t)
    ensures AtMostOneHit(d, j, t.replies)
    ensures AnyHit(d, j, t.replies) <==> j != Idx(d, t) && Reaches(d, j, Idx(d, t))
  {
    RepliesAtMostOne(d, t, j);
    if AnyHit(d, j, t.replies) {
      var i :| 0 <= i < |t.replies| && Hit(d, j, t.replies[i]);
      ReplyHitReachesNode(d, t, j, i);
    }
    if j != Idx(d, t) && Reaches(d, j, Idx(d, t)) {
      NodeReachedThroughReply(d, t, j);
    }
  }

  /**
   * In a list of well-nested nodes through which the chain of the j-th
   * comment runs at most once, that comment occurs once if the chain runs
   * through one of them and not at all otherwise.
   */
  lemma {:induction false} ForestCount(d: seq<Comment>, ns: seq<Node>, j: nat)
    requires DistinctIds(d) && j < |d|
    requires forall t :: t in ns ==> WellNested(d, t)
    requires AtMostOneHit(d, j, ns)
    ensures multiset(FlatAll(ns))[d[j]] == if AnyHit(d, j, ns) then 1 else 0
    decreases ns
  {
    if ns != [] {
      var t, rest := ns[0], ns[1..];
      assert t in ns;
      var k := Idx(d, t);
      assert FlatAll(ns) == [t.comment] + FlatAll(t.replies) + FlatAll(rest);
      RepliesHits(d, t, j);
      ForestCount(d, t.replies, j);
      HitSplit(d, j, ns);
      ForestCount(d, rest, j);
      IdIndexOf(d, j);
      assert (t.comment == d[j]) == (k == j);
    }
  }

  /** The hits of a non-empty list are those of its head and those of its tail, and at most one of the two. */
  lemma HitSplit(d: seq<Comment>, j: nat, ns: seq<Node>)
    requires j < |d| && ns != [] && AtMostOneHit(d, j, ns)
    ensures AtMostOneHit(d, j, ns[1..])
    ensures AnyHit(d, j, ns) <==> Hit(d, j, ns[0]) || AnyHit(d, j, ns[1..])
    ensures !(Hit(d, j, ns[0]) && AnyHit(d, j, ns[1..]))
  {
    var rest := ns[1..];
    forall a, b | 0 <= a < |rest| && 0 <= b < |rest| && Hit(d, j, rest[a]) && Hit(d, j, rest[b])
      ensures a == b
    {
      assert rest[a] == ns[a + 1] && rest[b] == ns[b + 1];
    }
    if AnyHit(d, j, rest) {
      var i :| 0 <= i < |rest| && Hit(d, j, rest[i]);
      assert ns[i + 1] == rest[i];
    }
    if AnyHit(d, j, ns) && !Hit(d, j, ns[0]) {
      var i :| 0 <= i < |ns| && Hit(d, j, ns[i]);
      assert i > 0 && ns[i] == rest[i - 1];
    }
  }

  /** Every comment in the forest and its replies is one of the first occurrences. */
  lemma {:induction false} FlatAllPlaced(d: seq<Comment>, ns: seq<Node>)
    requires forall t :: t in ns ==> WellNested(d, t)
    ensures forall c :: c in FlatAll(ns) ==> c in d
    decreases ns
  {
    if ns != [] {
      assert ns[0] in ns;
      FlatAllPlaced(d, ns[0].replies);
      FlatAllPlaced(d, ns[1..]);
      assert Idx(d, ns[0]) < |d|;
    }
  }

  /**
   * Every distinct comment occurs exactly once in the built forest, as a root
   * or nested in some replies, unless it vanishes with a comment that names
   * itself as its parent; and nothing else occurs in it.
   */
  lemma ExactlyOnce(data: seq<Comment>, forest: seq<Node>)
    requires Comments(forest) == Roots(FirstOccurrences(data))
    requires forall t :: t in forest ==> WellNested(FirstOccurrences(data), t)
    ensures var d := FirstOccurrences(data);
      forall j :: 0 <= j < |d| ==> multiset(FlatAll(forest))[d[j]] == if Vanishes(d, j) then 0 else 1
    ensures forall c :: c in FlatAll(forest) ==> c in FirstOccurrences(data)
  {
    var d := FirstOccurrences(data);
    FirstOccurrencesDistinct(data);
    FlatAllPlaced(d, forest);
    forall j | 0 <= j < |d|
      ensures multiset(FlatAll(forest))[d[j]] == if Vanishes(d, j) then 0 else 1
    {
      RootsHits(d, forest, j);
      ForestCount(d, forest, j);
    }
  }

  /** The i-th root of the forest is the comment at the i-th root index, which the walk does not move. */
  lemma RootAt(d: seq<Comment>, forest: seq<Node>, i: nat)
    requires DistinctIds(d) && Comments(forest) == Roots(d) && i < |forest|
    requires forall t :: t in forest ==> WellNested(d, t)
    ensures var r := RootIndices(d, |d|); |r| == |forest| && Idx(d, forest[i]) == r[i] && !Moved(d, r[i])
  {
    var r := RootIndices(d, |d|);
    assert forest[i] in forest;
    assert Comments(forest)[i] == d[r[i]];
    IdIndexOf(d, r[i]);
  }

  /** The chain of the j-th comment runs through at most one root. */
  lemma RootsAtMostOne(d: seq<Comment>, forest: seq<Node>, j: nat)
    requires DistinctIds(d) && j < |d|
    requires Comments(forest) == Roots(d)
    requires forall t :: t in forest ==> WellNested(d, t)
    ensures AtMostOneHit(d, j, forest)
  {
    var r := RootIndices(d, |d|);
    forall a, b | 0 <= a < |forest| && 0 <= b < |forest| && Hit(d, j, forest[a]) && Hit(d, j, forest[b])
      ensures a == b
    {
      RootAt(d, forest, a);
      RootAt(d, forest, b);
      ReachesLinear(d, j, r[a], r[b]);
      ReachesForward(d, r[a], r[b]);
      ReachesForward(d, r[b], r[a]);
    }
  }

  /** The root of the j-th comment's chain is in the forest exactly when the chain does not end in a self-parented comment. */
  lemma RootsHits(d: seq<Comment>, forest: seq<Node>, j: nat)
    requires DistinctIds(d) && j < |d|
    requires Comments(forest) == Roots(d)
    requires forall t :: t in forest ==> WellNested(d, t)
    ensures AtMostOneHit(d, j, forest)
    ensures AnyHit(d, j, forest) <==> !Vanishes(d, j)
  {
    RootsAtMostOne(d, forest, j);
    var r := RootIndices(d, |d|);
    var t := Terminal(d, j);
    TerminalReached(d, j);
    assert |r| == |forest|;
    if !Moved(d, t) {
      assert t in r;
      var i :| 0 <= i < |r| && r[i] == t;
      RootAt(d, forest, i);
      assert Hit(d, j, forest[i]);
    } else if AnyHit(d, j, forest) {
      var i :| 0 <= i < |forest| && Hit(d, j, forest[i]);
      RootAt(d, forest, i);
      TerminalShared(d, j, r[i]);
    }
  }

  // ---------------------------------------------------------------------
  // The placement rules, stated on a built forest.
  // ---------------------------------------------------------------------

  /** A first occurrence is a root of the forest exactly when the walk does not move it. */
  lemma RootMembership(d: seq<Comment>, j: nat)
    requires DistinctIds(d) && j < |d|
    ensures d[j] in Roots(d) <==> !Moved(d, j)
  {
    var r := RootIndices(d, |d|);
    if !Moved(d, j) {
      var i :| 0 <= i < |r| && r[i] == j;
      assert Roots(d)[i] == d[j];
    }
    if d[j] in Roots(d) {
      var i :| 0 <= i < |r| && Roots(d)[i] == d[j];
      IdIndexOf(d, r[i]);
      IdIndexOf(d, j);
    }
  }

  /**
   * A comment with no parent (null or 0), or whose parent is not among the
   * fetched ids, stays a root and occurs exactly once.
   */
  lemma OrphanIsRoot(data: seq<Comment>, forest: seq<Node>, j: nat)
    requires Comments(forest) == Roots(FirstOccurrences(data))
    requires forall t :: t in forest ==> WellNested(FirstOccurrences(data), t)
    requires j < |FirstOccurrences(data)|
    requires var c := FirstOccurrences(data)[j]; !HasParent(c) || c.parentId.value !in Ids(data)
    ensures var c := FirstOccurrences(data)[j]; c in Comments(forest) && multiset(FlatAll(forest))[c] == 1
  {
    var d := FirstOccurrences(data);
    FirstOccurrencesDistinct(data);
    FirstOccurrencesIds(data);
    RootMembership(d, j);
    ExactlyOnce(data, forest);
  }

  /** A comment that names itself as its parent is pushed into its own replies and deleted: it vanishes. */
  lemma SelfParentVanishes(data: seq<Comment>, forest: seq<Node>, j: nat)
    requires Comments(forest) == Roots(FirstOccurrences(data))
    requires forall t :: t in forest ==> WellNested(FirstOccurrences(data), t)
    requires j < |FirstOccurrences(data)|
    requires var c := FirstOccurrences(data)[j]; HasParent(c) && c.parentId.value == c.id
    ensures FirstOccurrences(data)[j] !in FlatAll(forest)
  {
    var d := FirstOccurrences(data);
    FirstOccurrencesDistinct(data);
    IdIndexOf(d, j);
    assert Moved(d, j) && Terminal(d, j) == j;
    ExactlyOnce(data, forest);
  }

  /**
   * How deep a reply nests depends on input order. A reply whose parent
   * comes later in the list is moved out of the roots; a reply whose parent
   * comes earlier stays a root exactly when that parent is itself nested.
   */
  lemma NestingFollowsOrder(data: seq<Comment>, forest: seq<Node>, j: nat, q: nat)
    requires Comments(forest) == Roots(FirstOccurrences(data))
    requires j < |FirstOccurrences(data)| && q < |FirstOccurrences(data)| && q != j
    requires var c := FirstOccurrences(data)[j];
      HasParent(c) && c.parentId.value == FirstOccurrences(data)[q].id
    ensures var d := FirstOccurrences(data);
      q > j ==> d[j] !in Comments(forest)
    ensures var d := FirstOccurrences(data);
      q < j ==> (d[j] in Comments(forest) <==> d[q] !in Comments(forest))
  {
    var d := FirstOccurrences(data);
    FirstOccurrencesDistinct(data);
    IdIndexOf(d, q);
    RootMembership(d, j);
    RootMembership(d, q);
  }

  /** Roots keep the input order of their first occurrences. */
  lemma RootsInInputOrder(data: seq<Comment>, forest: seq<Node>)
    requires Comments(forest) == Roots(FirstOccurrences(data))
    ensures var d := FirstOccurrences(data);
      forall a, b :: 0 <= a < b < |forest| ==>
        Placed(d, forest[a]) && Placed(d, forest[b]) && Idx(d, forest[a]) < Idx(d, forest[b])
  {
    var d := FirstOccurrences(data);
    FirstOccurrencesDistinct(data);
    var r := RootIndices(d, |d|);
    forall i | 0 <= i < |forest| ensures Placed(d, forest[i]) && Idx(d, forest[i]) == r[i] {
      assert Comments(forest)[i] == d[r[i]];
      IdIndexOf(d, r[i]);
    }
  }

  /**
   * The replies of a node are the comments naming it as parent, in input
   * order.
   */
  lemma RepliesInInputOrder(d: seq<Comment>, t: Node)
    requires DistinctIds(d) && WellNested(d, t)
    ensures forall i :: 0 <= i < |t.replies| ==> t.replies[i].comment.parentId == Some(t.comment.id)
    ensures forall a, b :: 0 <= a < b < |t.replies| ==>
      Placed(d, t.replies[a]) && Placed(d, t.replies[b]) && Idx(d, t.replies[a]) < Idx(d, t.replies[b])
  {
    forall i | 0 <= i < |t.replies|
      ensures WellNested(d, t.replies[i]) && Idx(d, t.replies[i]) == ChildIndices(d, Idx(d, t), |d|)[i]
      ensures t.replies[i].comment.parentId == Some(t.comment.id)
    {
      ReplyIndex(d, t, i);
    }
  }
}

