/**
 * The state of the comment panel of one event (src/components/ui/chatui.tsx,
 * `EventComments`): the forest shown, the text being typed, the root being
 * replied to and the loading flag, with the handlers that change them.
 *
 * The socket is not modelled: an incoming message is a call of
 * `ReceiveComment`, and the message `handleSubmitComment` emits is the result
 * of `SubmitComment`.  The HTTP response of `fetchComments` is a parameter.
 */
module CommentPanel {
  import opened Js
  import opened CommentTree
  import opened CommentStream

  /** The payload emitted on the 'Comment' channel. */
  datatype Outgoing = Outgoing(
    eventId: int,
    userId: int,
    commentText: string,
    username: string,
    parentId: Option<int>)

  class EventComments {
    const eventId: int
    const userId: int
    /** `session?.user?.username`. */
    const username: Option<string>
    var comments: seq<Node>
    var newComment: string
    var replyTo: Option<int>
    var isLoading: bool

    constructor(eventId: int, userId: int, username: Option<string>)
      ensures this.eventId == eventId && this.userId == userId && this.username == username
      ensures comments == [] && newComment == "" && replyTo == None && !isLoading
    {
      this.eventId := eventId;
      this.userId := userId;
      this.username := username;
      comments := [];
      newComment := "";
      replyTo := None;
      isLoading := false;
    }

    /**
     * The guard of `handleSubmitComment`: a truthy user id, text that is not
     * blank once trimmed, and a non-empty user name.
     */
    predicate CanSubmit()
      reads this
    {
      userId != 0 && !IsBlank(newComment) && username.Some? && username.value != ""
    }

    /**
     * `fetchComments`: `response` is the parsed list, or None when the
     * request failed, in which case the forest is left as it was.
     */
    method FetchComments(response: Option<seq<Comment>>)
      modifies this
      ensures response.Some? ==> Comments(comments) == Roots(FirstOccurrences(response.value))
      ensures response.Some? ==> forall t :: t in comments ==> WellNested(FirstOccurrences(response.value), t)
      ensures response.None? ==> comments == old(comments)
      ensures !isLoading && newComment == old(newComment) && replyTo == old(replyTo)
    {
      isLoading := true;
      if response.Some? {
        comments := BuildForest(response.value);
      }
      isLoading := false;
    }

    /** A comment pushed on the 'onComment' channel, merged without showing any comment twice. */
    method ReceiveComment(c: Comment)
      modifies this
      ensures comments == Merge(old(comments), c)
      ensures newComment == old(newComment) && replyTo == old(replyTo) && isLoading == old(isLoading)
    {
      comments := HandleNewComment(comments, c);
    }

    /** The text input's `onChange`. */
    method SetNewComment(text: string)
      modifies this
      ensures newComment == text
      ensures comments == old(comments) && replyTo == old(replyTo) && isLoading == old(isLoading)
    {
      newComment := text;
    }

    /** The Reply button of a root comment. */
    method SetReplyTo(id: int)
      modifies this
      ensures replyTo == Some(id)
      ensures comments == old(comments) && newComment == old(newComment) && isLoading == old(isLoading)
    {
      replyTo := Some(id);
    }

    /** The Cancel button of the reply banner. */
    method CancelReply()
      modifies this
      ensures replyTo == None
      ensures comments == old(comments) && newComment == old(newComment) && isLoading == old(isLoading)
    {
      replyTo := None;
    }

    /**
     * `handleSubmitComment`. When the guard fails nothing is emitted and
     * nothing changes. Otherwise the untrimmed text is emitted with the reply
     * target as parent id, and the text and the reply target are cleared;
     * when `emit` throws (`emitThrows`), nothing is emitted and nothing is
     * cleared. The forest is never touched: the comment appears only when
     * the server pushes it back.
     */
    method SubmitComment(emitThrows: bool) returns (sent: Option<Outgoing>)
      modifies this
      ensures !old(CanSubmit()) || emitThrows ==>
        sent == None && newComment == old(newComment) && replyTo == old(replyTo)
      ensures old(CanSubmit()) && !emitThrows ==>
        sent == Some(Outgoing(eventId, userId, old(newComment), username.value, old(replyTo)))
        && newComment == "" && replyTo == None
      ensures comments == old(comments) && isLoading == old(isLoading)
    {
      if !CanSubmit() {
        return None;
      }
      var message := Outgoing(eventId, userId, newComment, username.value, replyTo);
      if emitThrows {
        return None;
      }
      sent := Some(message);
      newComment := "";
      replyTo := None;
    }
  }

  /** The guard rejects exactly the missing user id, the blank text and the missing or empty user name. */
  lemma SubmitGuard(userId: int, text: string, username: Option<string>)
    ensures (userId != 0 && !IsBlank(text) && username.Some? && username.value != "")
      <==> (userId != 0 && (exists i :: 0 <= i < |text| && !IsSpace(text[i])) && username.Some? && username.value != "")
  {
    BlankIffAllSpace(text);
  }
}
