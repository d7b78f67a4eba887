/**
 * The forum's persisted entities and the small enumerations the actions use.
 * Every document is a plain value; the collections that hold them live in
 * `Database.Store`. Counters are unbounded integers (JavaScript numbers that
 * never leave the safe-integer range in practice).
 */
module Model {

  /** An ObjectId, or any other identifier, as its string form. */
  type Id = string

  datatype Option<T> = None | Some(value: T)

  datatype Result<T> = Ok(value: T) | Err(error: Error)

  /** The typed errors the actions throw and the boundary turns into `{ success: false }`. */
  datatype Error =
    | NotFound(what: string)
    | Unauthorized
    | ValidationError(field: string)
    | TargetNotFound

  /** 'question' | 'answer': what a vote or an interaction is about. */
  datatype TargetType = OnQuestion | OnAnswer

  /** 'upvote' | 'downvote' */
  datatype VoteType = Up | Down

  /** The actions an interaction records ('view', 'upvote', ..., 'search'). */
  datatype Action = View | Upvote | Downvote | Bookmark | Post | Edit | Delete | Search

  /** The interaction action a vote of this type is recorded as. */
  function ActionOf(vt: VoteType): Action {
    match vt
    case Up => Upvote
    case Down => Downvote
  }

  datatype User = User(
    name: string,
    username: string,
    email: string,
    bio: Option<string>,
    image: Option<string>,
    location: Option<string>,
    portfolio: Option<string>,
    reputation: int)

  datatype Account = Account(
    userId: Id,
    name: string,
    image: Option<string>,
    password: Option<string>,
    provider: string,
    providerAccountId: string)

  datatype Question = Question(
    title: string,
    content: string,
    tags: seq<Id>,
    views: int,
    answers: int,
    upvotes: int,
    downvotes: int,
    author: Id)

  /** An answer document; `createdAt` is the timestamp Mongoose adds. */
  datatype Answer = Answer(
    author: Id,
    question: Id,
    content: string,
    upvotes: int,
    downvotes: int,
    createdAt: int)

  datatype Vote = Vote(author: Id, actionId: Id, actionType: TargetType, voteType: VoteType)

  datatype Interaction = Interaction(user: Id, action: Action, actionId: Id, actionType: TargetType)

  /**
   * A call to `createInteraction` registered with `after(...)`: it runs once the
   * response is sent, with the session user of the request as performer.
   */
  datatype InteractionRequest = InteractionRequest(
    performer: Id,
    action: Action,
    actionId: Id,
    actionTarget: TargetType,
    authorId: Id)

  /** `{ hasUpvoted, hasDownvoted }` together with the response's `success` flag. */
  datatype HasVotedResponse = HasVotedResponse(success: bool, hasUpvoted: bool, hasDownvoted: bool)

  /** A new question starts with every counter at zero. */
  function NewQuestion(title: string, content: string, tags: seq<Id>, author: Id): Question {
    Question(title, content, tags, 0, 0, 0, 0, author)
  }

  /** A new answer starts with both vote counters at zero. */
  function NewAnswer(author: Id, question: Id, content: string, createdAt: int): Answer {
    Answer(author, question, content, 0, 0, createdAt)
  }

  /** A new user starts with reputation 0 and no profile extras. */
  function NewUser(name: string, username: string, email: string, image: Option<string>): User {
    User(name, username, email, None, image, None, None, 0)
  }
}
