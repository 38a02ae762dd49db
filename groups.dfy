/**
 * The groups page (src/app/groups/page.tsx): the list of the user's groups,
 * the new-group form with its member picker, and the user id the page works
 * for.
 *
 * The list updates and the member check are pure functions; the user id
 * resolution and the create flow change the page's state and storage and are
 * methods of `GroupPage`.  HTTP responses are parameters.
 */
module Groups {
  import opened Js
  import Ui

  datatype Member = Member(id: int, username: string)

  datatype Group = Group(
    id: int,
    groupName: string,
    description: string,
    members: seq<Member>,
    memberCount: int)

  /** The form state `newGroup`. */
  datatype NewGroup = NewGroup(
    groupOwnerId: int,
    groupName: string,
    description: string,
    memberIds: seq<int>)

  predicate NoDuplicates(s: seq<int>)
  {
    forall i, j :: 0 <= i < j < |s| ==> s[i] != s[j]
  }

  /**
   * `handleMemberSelection`: `parsed` is `parseInt(value, 10)`, None for NaN.
   * A number not yet among the members is appended; anything else leaves the
   * form as it was.  So the member list never gains a duplicate.
   */
  function SelectMember(g: NewGroup, parsed: Option<int>): (r: NewGroup)
    ensures parsed.None? ==> r == g
    ensures parsed.Some? && parsed.value in g.memberIds ==> r == g
    ensures parsed.Some? && parsed.value !in g.memberIds ==> r == g.(memberIds := g.memberIds + [parsed.value])
    ensures NoDuplicates(g.memberIds) ==> NoDuplicates(r.memberIds)
  {
    if parsed.Some? && parsed.value !in g.memberIds then
      g.(memberIds := g.memberIds + [parsed.value])
    else g
  }

  function GroupId(g: Group): int
  {
    g.id
  }

  /** `handleDeleteGroup` after a successful DELETE: the groups with another id, in order. */
  function DeleteGroup(groups: seq<Group>, groupId: int): (r: seq<Group>)
    ensures forall g :: g in r <==> g in groups && g.id != groupId
    ensures Sublist(r, groups)
  {
    RemoveById(groups, GroupId, groupId)
  }

  /** Deleting keeps every copy of a group with another id and no copy of one with that id. */
  lemma DeleteGroupCount(groups: seq<Group>, groupId: int, g: Group)
    ensures multiset(DeleteGroup(groups, groupId))[g] == if g.id == groupId then 0 else multiset(groups)[g]
  {
    RemoveByIdCount(groups, GroupId, groupId, g);
  }

  /** `handleUpdateGroup` after a successful PUT: the returned group replaces every group with its id. */
  function UpdateGroup(groups: seq<Group>, updated: Group): (r: seq<Group>)
    ensures |r| == |groups|
    ensures forall i :: 0 <= i < |r| ==> r[i].id == groups[i].id
    ensures forall i :: 0 <= i < |r| && groups[i].id != updated.id ==> r[i] == groups[i]
    ensures forall i :: 0 <= i < |r| && groups[i].id == updated.id ==> r[i] == updated
  {
    seq(|groups|, i requires 0 <= i < |groups| => if groups[i].id == updated.id then updated else groups[i])
  }

  /** Applying the same update twice is applying it once. */
  lemma UpdateGroupIdempotent(groups: seq<Group>, updated: Group)
    ensures UpdateGroup(UpdateGroup(groups, updated), updated) == UpdateGroup(groups, updated)
  {
  }

  /** An update for an id no group has changes nothing. */
  lemma UpdateUnknownGroup(groups: seq<Group>, updated: Group)
    requires forall g :: g in groups ==> g.id != updated.id
    ensures UpdateGroup(groups, updated) == groups
  {
  }

  /**
   * The `setGroups` updater of `handleCreateGroup`: `prev` is None when the
   * state is not an array (`data.data` of the groups request was missing).
   */
  function AddCreated(prev: Option<seq<Group>>, created: Group): (r: seq<Group>)
    ensures |r| >= 1 && r[|r| - 1] == created
    ensures prev.Some? ==> r[..|r| - 1] == prev.value
    ensures prev.None? ==> r == [created]
  {
    if prev.Some? then prev.value + [created] else [created]
  }

  /** Deleting a group that was just created with a fresh id gives back the list before it. */
  lemma DeleteUndoesCreate(groups: seq<Group>, created: Group)
    requires forall g :: g in groups ==> g.id != created.id
    ensures DeleteGroup(AddCreated(Some(groups), created), created.id) == groups
  {
    RemoveAppended(groups, GroupId, created);
  }

  /** What `handleCreateGroup` gets back: the created group fetched again, or an error message. */
  datatype CreateOutcome = Created(group: Group) | CreateFailed(message: string)

  /** `userId` is truthy: set, and neither 0 nor NaN. */
  predicate HasUser(userId: Option<int>)
  {
    userId.Some? && userId.value != 0
  }

  class GroupPage {
    /** The page's `userId`; None stands for both `null` and `NaN`, which the page treats alike. */
    var userId: Option<int>
    var newGroup: NewGroup
    /** The `groups` state; None once `FetchGroups` stored a `data.data` that is not an array. */
    var groups: Option<seq<Group>>
    var isCreateDialogOpen: bool
    var storage: Storage

    constructor(storage: Storage)
      ensures this.storage == storage
      ensures userId == None && newGroup == NewGroup(0, "", "", []) && groups == Some([])
      ensures !isCreateDialogOpen
    {
      this.storage := storage;
      userId := None;
      newGroup := NewGroup(0, "", "", []);
      groups := Some([]);
      isCreateDialogOpen := false;
    }

    /**
     * The user-id effect: a non-empty stored 'userId' wins, converted by
     * `toNumber` (`Number`, None for NaN); otherwise a truthy session id is
     * adopted and written to storage; otherwise nothing changes.
     */
    method ResolveUserId(sessionId: Option<int>, toNumber: string -> Option<int>)
      modifies this
      ensures "userId" in old(storage) && old(storage)["userId"] != "" ==>
        userId == toNumber(old(storage)["userId"]) && storage == old(storage)
      ensures !("userId" in old(storage) && old(storage)["userId"] != "") && HasUser(sessionId) ==>
        userId == sessionId && storage == old(storage)["userId" := IntToString(sessionId.value)]
      ensures !("userId" in old(storage) && old(storage)["userId"] != "") && !HasUser(sessionId) ==>
        userId == old(userId) && storage == old(storage)
      ensures newGroup == old(newGroup) && groups == old(groups) && isCreateDialogOpen == old(isCreateDialogOpen)
    {
      if "userId" in storage && storage["userId"] != "" {
        userId := toNumber(storage["userId"]);
      } else if HasUser(sessionId) {
        userId := sessionId;
        storage := storage["userId" := IntToString(sessionId.value)];
      }
    }

    /**
     * `handleCreateGroup`. Without a user id it reports an error and sends
     * nothing. Otherwise it sends the form with the user as owner; on success
     * the fetched group is appended, the dialog closes and the form is reset
     * with the user as owner; on failure only the message is reported.
     */
    method CreateGroup(outcome: CreateOutcome) returns (request: Option<NewGroup>, error: Option<string>)
      modifies this
      ensures !HasUser(old(userId)) ==>
        request == None && error == Some("User ID is not defined")
        && groups == old(groups) && newGroup == old(newGroup) && isCreateDialogOpen == old(isCreateDialogOpen)
      ensures HasUser(old(userId)) ==> request == Some(old(newGroup).(groupOwnerId := old(userId).value))
      ensures HasUser(old(userId)) && outcome.Created? ==>
        error == None && groups == Some(AddCreated(old(groups), outcome.group))
        && newGroup == NewGroup(old(userId).value, "", "", []) && !isCreateDialogOpen
      ensures HasUser(old(userId)) && outcome.CreateFailed? ==>
        error == Some(outcome.message)
        && groups == old(groups) && newGroup == old(newGroup) && isCreateDialogOpen == old(isCreateDialogOpen)
      ensures userId == old(userId) && storage == old(storage)
    {
      if !HasUser(userId) {
        return None, Some("User ID is not defined");
      }
      request := Some(newGroup.(groupOwnerId := userId.value));
      match outcome {
        case Created(g) =>
          groups := Some(AddCreated(groups, g));
          isCreateDialogOpen := false;
          newGroup := NewGroup(userId.value, "", "", []);
          error := None;
        case CreateFailed(message) =>
          error := Some(message);
      }
    }

    /**
     * The groups effect: `fetchGroups` runs only when `userId` is truthy.
     * Whatever `data.data` holds is stored (None for a non-array value); a
     * failed request changes nothing.
     */
    method FetchGroups(response: Ui.Fetched<Group>)
      modifies this
      ensures HasUser(old(userId)) && response.Array? ==> groups == Some(response.items)
      ensures HasUser(old(userId)) && response.NotArray? ==> groups.None?
      ensures !HasUser(old(userId)) || response.Failed? ==> groups == old(groups)
      ensures userId == old(userId) && newGroup == old(newGroup) && storage == old(storage)
      ensures isCreateDialogOpen == old(isCreateDialogOpen)
    {
      if !HasUser(userId) {
        return;
      }
      match response {
        case Array(items) => groups := Some(items);
        case NotArray => groups := None;
        case Failed =>
      }
    }

    /** The member picker's `onValueChange`. */
    method SelectMemberValue(parsed: Option<int>)
      modifies this
      ensures newGroup == SelectMember(old(newGroup), parsed)
      ensures userId == old(userId) && groups == old(groups) && storage == old(storage)
      ensures isCreateDialogOpen == old(isCreateDialogOpen)
    {
      newGroup := SelectMember(newGroup, parsed);
    }
  }
}
