/**
 * The document store the server actions read and write.
 *
 * `Db` is a snapshot of every collection the actions touch; `Store` holds the
 * same collections as mutable fields and is what the action methods update in
 * place. Questions, answers and users are found by `_id` and are kept as maps
 * keyed by it; votes and accounts are found by other fields and are kept as
 * sequences of documents in insertion order, so that "at most one vote per
 * voter and target" is an invariant the actions must keep rather than a fact
 * of the representation.
 *
 * A database transaction is one atomic step: an action either returns the
 * new snapshot or fails and leaves the snapshot as it was. Calls scheduled
 * with `after(...)` are queued in `pending` and run later (see
 * `InteractionAction.RunNextDeferred`).
 */
module Database {
  import opened Model

  datatype Db = Db(
    questions: map<Id, Question>,
    answers: map<Id, Answer>,
    votes: seq<Vote>,
    users: map<Id, User>,
    accounts: seq<Account>,
    interactions: seq<Interaction>,
    pending: seq<InteractionRequest>)

  /** The outcome of one action: the store afterwards and the response. */
  datatype Step<T> = Step(db: Db, result: Result<T>)

  const Empty := Db(map[], map[], [], map[], [], [], [])

  class Store {
    var questions: map<Id, Question>
    var answers: map<Id, Answer>
    var votes: seq<Vote>
    var users: map<Id, User>
    var accounts: seq<Account>
    var interactions: seq<Interaction>
    var pending: seq<InteractionRequest>

    function Snapshot(): Db
      reads this
    {
      Db(questions, answers, votes, users, accounts, interactions, pending)
    }

    constructor ()
      ensures Snapshot() == Empty
    {
      questions, answers, votes := map[], map[], [];
      users, accounts, interactions, pending := map[], [], [], [];
    }
  }

  // ---------------------------------------------------------------------
  // Vote targets and their counters

  /** `Model.findById(targetId)` succeeds, `Model` chosen by the target type. */
  predicate TargetExists(db: Db, tt: TargetType, id: Id) {
    match tt
    case OnQuestion => id in db.questions
    case OnAnswer => id in db.answers
  }

  /** The `upvotes` or `downvotes` field of a target. */
  function Counter(db: Db, tt: TargetType, id: Id, vt: VoteType): int
    requires TargetExists(db, tt, id)
  {
    match (tt, vt)
    case (OnQuestion, Up) => db.questions[id].upvotes
    case (OnQuestion, Down) => db.questions[id].downvotes
    case (OnAnswer, Up) => db.answers[id].upvotes
    case (OnAnswer, Down) => db.answers[id].downvotes
  }

  function TargetAuthor(db: Db, tt: TargetType, id: Id): Id
    requires TargetExists(db, tt, id)
  {
    match tt
    case OnQuestion => db.questions[id].author
    case OnAnswer => db.answers[id].author
  }

  /** The label `NotFoundError` carries: the target type with a capital letter. */
  function TargetLabel(tt: TargetType): string {
    match tt
    case OnQuestion => "Question"
    case OnAnswer => "Answer"
  }

  // ---------------------------------------------------------------------
  // Votes

  /** The fields `Vote.findOne` filters on: author, actionId, actionType. */
  datatype VoteKey = VoteKey(author: Id, actionId: Id, actionType: TargetType)

  function KeyOf(v: Vote): VoteKey {
    VoteKey(v.author, v.actionId, v.actionType)
  }

  ghost predicate UniqueKeys(votes: seq<Vote>) {
    forall i, j :: 0 <= i < j < |votes| ==> KeyOf(votes[i]) != KeyOf(votes[j])
  }

  predicate CountsFor(v: Vote, id: Id, tt: TargetType, vt: VoteType) {
    v.actionId == id && v.actionType == tt && v.voteType == vt
  }

  /** How many votes of type `vt` the collection holds on a target. */
  function CountVotes(votes: seq<Vote>, id: Id, tt: TargetType, vt: VoteType): nat {
    if votes == [] then 0
    else
      var last := votes[|votes| - 1];
      CountVotes(votes[..|votes| - 1], id, tt, vt) + (if CountsFor(last, id, tt, vt) then 1 else 0)
  }

  lemma {:induction false} CountVotesConcat(a: seq<Vote>, b: seq<Vote>, id: Id, tt: TargetType, vt: VoteType)
    ensures CountVotes(a + b, id, tt, vt) == CountVotes(a, id, tt, vt) + CountVotes(b, id, tt, vt)
    decreases |b|
  {
    if b == [] {
      assert a + b == a;
    } else {
      var n := |b| - 1;
      assert (a + b)[..|a + b| - 1] == a + b[..n];
      assert (a + b)[|a + b| - 1] == b[n];
      CountVotesConcat(a, b[..n], id, tt, vt);
    }
  }

  lemma CountVotesSingle(v: Vote, id: Id, tt: TargetType, vt: VoteType)
    ensures CountVotes([v], id, tt, vt) == if CountsFor(v, id, tt, vt) then 1 else 0
  {
    assert [v][..0] == [];
  }

  /** Splitting the collection around position `i`. */
  lemma CountVotesAround(votes: seq<Vote>, i: nat, id: Id, tt: TargetType, vt: VoteType)
    requires i < |votes|
    ensures CountVotes(votes, id, tt, vt)
      == CountVotes(votes[..i], id, tt, vt) + CountVotes(votes[i + 1..], id, tt, vt)
         + (if CountsFor(votes[i], id, tt, vt) then 1 else 0)
  {
    assert votes == votes[..i] + [votes[i]] + votes[i + 1..];
    CountVotesConcat(votes[..i] + [votes[i]], votes[i + 1..], id, tt, vt);
    CountVotesConcat(votes[..i], [votes[i]], id, tt, vt);
    CountVotesSingle(votes[i], id, tt, vt);
  }

  // ---------------------------------------------------------------------
  // Answers and users

  /** The ids of the answers given to question `q`. */
  ghost function AnswerIdsOf(answers: map<Id, Answer>, q: Id): set<Id> {
    set a | a in answers && answers[a].question == q
  }

  /** `User.findOne({ email })` finds a document. */
  predicate EmailTaken(users: map<Id, User>, email: string) {
    exists id :: id in users && users[id].email == email
  }

  // ---------------------------------------------------------------------
  // The invariant the actions keep

  /** Every counter equals the number of votes of that type on that target. */
  ghost predicate Tallied(db: Db) {
    forall tt, id, vt :: TargetExists(db, tt, id) ==> Counter(db, tt, id, vt) == CountVotes(db.votes, id, tt, vt)
  }

  /** No vote refers to a target that does not exist. */
  ghost predicate VotesOnLiveTargets(db: Db) {
    forall i :: 0 <= i < |db.votes| ==> TargetExists(db, db.votes[i].actionType, db.votes[i].actionId)
  }

  /** Every question's `answers` counter equals the number of its answers. */
  ghost predicate AnswersCounted(db: Db) {
    forall q :: q in db.questions ==> db.questions[q].answers == |AnswerIdsOf(db.answers, q)|
  }

  /** The unique index on `User.email`. */
  ghost predicate UniqueEmails(users: map<Id, User>) {
    forall a, b :: a in users && b in users && users[a].email == users[b].email ==> a == b
  }

  ghost predicate Consistent(db: Db) {
    && UniqueKeys(db.votes)
    && VotesOnLiveTargets(db)
    && Tallied(db)
    && AnswersCounted(db)
    && UniqueEmails(db.users)
  }

  lemma EmptyIsConsistent()
    ensures Consistent(Empty)
  {
  }
}
