/**
 * The backend's REST resources as the client reads them. Ids are integers;
 * timestamps are integers standing for the parsed dates the chat sorts by.
 */
module Entities {
  import opened Wrappers

  type Id = int

  datatype User = User(id: Id, username: string, firstName: string, lastName: string, email: string)

  /** A friend request or friendship: `status` is `'sent'`, `'accepted'` or `'rejected'`. */
  datatype Friendship = Friendship(id: Id, user: Id, friend: Id, status: string)

  datatype Group = Group(id: Id, name: string, members: seq<Id>)

  /** A direct message has a `receiver`; a group message has a `groupId`. */
  datatype Message = Message(
    id: Id, sender: Id, receiver: Option<Id>, groupId: Option<Id>, content: string, timestamp: int)

  /**
   * A deployed program: `file` is the URL of its source, `inputType` and
   * `outputType` are dotted extensions such as ".csv".
   */
  datatype Program = Program(
    id: Id, title: string, description: string, file: string,
    inputType: string, outputType: string, isVisible: bool, author: Id)

  /** A comment on a program; `parent` is the id of the comment it replies to. */
  datatype Comment = Comment(id: Id, text: string, program: Id, parent: Option<Id>, authorId: Id)

  /** The four reactions the client counts, and any other string the backend might hold. */
  datatype Reaction = Like | Dislike | Share | Love | Unrecognised(name: string)

  /**
   * The reaction an action's `type` string can stand for: `Unrecognised`
   * never carries one of the four known names, since `"like"` is `Like`.
   */
  type Kind = r: Reaction | r.Unrecognised? ==> r.name !in ["like", "dislike", "share", "love"] witness Like

  /** The reaction an action's `type` string stands for. */
  function ReactionOf(name: string): (r: Kind)
    ensures r.Unrecognised? <==> name !in ["like", "dislike", "share", "love"]
    ensures r.Unrecognised? ==> r.name == name
    ensures r == Like <==> name == "like"
    ensures r == Dislike <==> name == "dislike"
    ensures r == Share <==> name == "share"
    ensures r == Love <==> name == "love"
  {
    if name == "like" then Like
    else if name == "dislike" then Dislike
    else if name == "share" then Share
    else if name == "love" then Love
    else Unrecognised(name)
  }

  /** A reaction of one user to a program (`programId`) or to a comment (`commentId`). */
  datatype Action = Action(
    id: Id, kind: Kind, authorId: Id, programId: Option<Id>, commentId: Option<Id>)
}
