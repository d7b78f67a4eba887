/**
 * Interactions and reputation: `createInteraction` records what a user did
 * and `updateReputation` credits the performer and the author of the content
 * with the points of that action. Votes, new answers and deleted answers
 * schedule interactions with `after(...)`; `RunNextDeferred` runs the oldest
 * one.
 */
module InteractionAction {
  import opened Model
  import opened Database
  import Validation
  import VoteAction

  // ---------------------------------------------------------------------
  // The points table

  /** The points the user who acts earns. */
  function PerformerPoints(action: Action): int {
    match action
    case Upvote => 2
    case Downvote => -1
    case _ => 0
  }

  /** The points the author of the content earns; posting and deleting weigh answers double. */
  function AuthorPoints(action: Action, target: TargetType): int {
    match action
    case Upvote => 10
    case Downvote => -2
    case Post => if target == OnQuestion then 5 else 10
    case Delete => if target == OnQuestion then -5 else -10
    case _ => 0
  }

  /**
   * How much the reputation of user `u` moves. When the performer is the
   * author only the author's points are applied; otherwise each gets their
   * own.
   */
  function Gain(u: Id, performer: Id, author: Id, action: Action, target: TargetType): int {
    if u == author then AuthorPoints(action, target)
    else if u == performer then PerformerPoints(action)
    else 0
  }

  /** `$inc: { reputation: points }` filtered on `_id`; no document matches a missing user. */
  function IncReputation(users: map<Id, User>, id: Id, points: int): (r: map<Id, User>)
    ensures r.Keys == users.Keys
    ensures forall u :: u in users ==>
      r[u] == users[u].(reputation := users[u].reputation + (if u == id then points else 0))
  {
    if id in users then users[id := users[id].(reputation := users[id].reputation + points)] else users
  }

  /** `updateReputation`: one update for a self-interaction, otherwise the two of a bulk write. */
  function ReputationApplied(users: map<Id, User>, performer: Id, author: Id, action: Action, target: TargetType): (r: map<Id, User>)
    ensures r.Keys == users.Keys
    ensures forall u :: u in users ==>
      r[u] == users[u].(reputation := users[u].reputation + Gain(u, performer, author, action, target))
  {
    if performer == author then IncReputation(users, author, AuthorPoints(action, target))
    else IncReputation(IncReputation(users, performer, PerformerPoints(action)), author, AuthorPoints(action, target))
  }

  /** A self-interaction credits the author points once and never the performer points. */
  lemma {:induction false} SelfInteraction(users: map<Id, User>, u: Id, action: Action, target: TargetType)
    requires u in users
    ensures ReputationApplied(users, u, u, action, target)
            == users[u := users[u].(reputation := users[u].reputation + AuthorPoints(action, target))]
  {
    var r := ReputationApplied(users, u, u, action, target);
    var s := users[u := users[u].(reputation := users[u].reputation + AuthorPoints(action, target))];
    assert r.Keys == s.Keys;
    forall x | x in r ensures r[x] == s[x] {
      if x != u {
        assert r[x] == users[x].(reputation := users[x].reputation);
      }
    }
  }

  /** Deleting content takes back exactly what posting it gave. */
  lemma {:induction false} PostThenDeleteRestores(users: map<Id, User>, performer: Id, author: Id, target: TargetType)
    ensures ReputationApplied(ReputationApplied(users, performer, author, Post, target), performer, author, Delete, target)
            == users
  {
    var r1 := ReputationApplied(users, performer, author, Post, target);
    var r2 := ReputationApplied(r1, performer, author, Delete, target);
    assert r2.Keys == users.Keys;
    forall u | u in users ensures r2[u] == users[u] {
      assert Gain(u, performer, author, Post, target) + Gain(u, performer, author, Delete, target) == 0;
    }
  }

  /** Viewing, bookmarking, editing and searching earn nobody anything. */
  lemma {:induction false} NeutralActionsChangeNothing(users: map<Id, User>, performer: Id, author: Id, action: Action,
                                                       target: TargetType)
    requires action in {View, Bookmark, Edit, Search}
    ensures ReputationApplied(users, performer, author, action, target) == users
  {
    var r := ReputationApplied(users, performer, author, action, target);
    forall u | u in users ensures r[u] == users[u] {
      assert Gain(u, performer, author, action, target) == 0;
    }
  }

  /** Only reputations change: names, usernames and emails stay. */
  lemma ReputationKeepsEmails(users: map<Id, User>, performer: Id, author: Id, action: Action, target: TargetType)
    requires UniqueEmails(users)
    ensures UniqueEmails(ReputationApplied(users, performer, author, action, target))
  {
    var r := ReputationApplied(users, performer, author, action, target);
    forall a, b | a in r && b in r && r[a].email == r[b].email ensures a == b {
      assert users[a].email == users[b].email;
    }
  }

  // ---------------------------------------------------------------------
  // createInteraction

  /**
   * `createInteraction` for a request: the interaction is stored with the
   * performer as its user, then reputations move. A request with an empty
   * action id or author id is refused and nothing changes.
   */
  function InteractionCreated(db: Db, req: InteractionRequest): (r: Step<Interaction>)
    ensures r.db.pending == db.pending
    ensures r.result.Ok? <==> req.actionId != [] && req.authorId != []
    ensures r.result.Err? ==> r.db == db
    ensures r.result.Ok? ==>
      && r.result.value == Interaction(req.performer, req.action, req.actionId, req.actionTarget)
      && r.db == db.(interactions := db.interactions + [r.result.value],
                     users := ReputationApplied(db.users, req.performer, req.authorId, req.action, req.actionTarget))
  {
    var issues := Validation.CreateInteractionIssues(req.actionId, req.authorId);
    if issues != [] then Step(db, Err(ValidationError(VoteAction.FirstIssuePath(issues))))
    else
      var interaction := Interaction(req.performer, req.action, req.actionId, req.actionTarget);
      var users := ReputationApplied(db.users, req.performer, req.authorId, req.action, req.actionTarget);
      Step(db.(interactions := db.interactions + [interaction], users := users), Ok(interaction))
  }

  lemma InteractionKeepsConsistent(db: Db, req: InteractionRequest)
    requires Consistent(db)
    ensures Consistent(InteractionCreated(db, req).db)
  {
    ReputationKeepsEmails(db.users, req.performer, req.authorId, req.action, req.actionTarget);
  }

  /** Runs the oldest deferred call, if any, and removes it from the queue. */
  function DeferredRun(db: Db): (r: Db)
    ensures db.pending == [] ==> r == db
    ensures db.pending != [] ==>
      && r.pending == db.pending[1..]
      && r.votes == db.votes && r.questions == db.questions && r.answers == db.answers
      && r.users.Keys == db.users.Keys
  {
    if db.pending == [] then db
    else InteractionCreated(db.(pending := db.pending[1..]), db.pending[0]).db
  }

  lemma DeferredRunKeepsConsistent(db: Db)
    requires Consistent(db)
    ensures Consistent(DeferredRun(db))
  {
    if db.pending != [] {
      InteractionKeepsConsistent(db.(pending := db.pending[1..]), db.pending[0]);
    }
  }

  /** Two casts of the same vote queue the same interaction twice and touch no reputation. */
  lemma CastTwiceQueues(db: Db, req: VoteAction.VoteRequest)
    requires req.targetId != [] && TargetExists(db, req.targetType, req.targetId)
    ensures var r2 := VoteAction.VoteCast(VoteAction.VoteCast(db, req).db, req).db;
      var ir := VoteAction.VoteInteraction(db, req);
      r2.pending == db.pending + [ir, ir] && r2.users == db.users
  {
    var r1 := VoteAction.VoteCast(db, req).db;
    assert TargetAuthor(r1, req.targetType, req.targetId) == TargetAuthor(db, req.targetType, req.targetId);
    assert VoteAction.VoteInteraction(r1, req) == VoteAction.VoteInteraction(db, req);
  }

  /** Running two queued interactions applies their points one after the other. */
  lemma RunTwo(d: Db, ir: InteractionRequest)
    requires d.pending == [ir, ir] && ir.actionId != [] && ir.authorId != []
    ensures var done := DeferredRun(DeferredRun(d));
      && done.pending == [] && done.votes == d.votes
      && done.users == ReputationApplied(ReputationApplied(d.users, ir.performer, ir.authorId, ir.action, ir.actionTarget),
                                         ir.performer, ir.authorId, ir.action, ir.actionTarget)
  {
    var d1 := DeferredRun(d);
    assert d1 == InteractionCreated(d.(pending := [ir]), ir).db;
    assert d1.pending == [ir];
    assert DeferredRun(d1) == InteractionCreated(d1.(pending := []), ir).db;
  }

  /**
   * The deferred interaction of a vote always carries the requested vote type,
   * even when the cast retracted the vote: an upvote cast twice, on an
   * answer or question of another user, leaves the ballot as it was but gives
   * the author 20 points and the voter 4 once both interactions have run.
   */
  lemma UpvoteCastTwiceStillRewards(db: Db, req: VoteAction.VoteRequest)
    requires UniqueKeys(db.votes) && db.pending == []
    requires req.targetId != [] && TargetExists(db, req.targetType, req.targetId)
    requires req.voteType == Up && VoteAction.Ballot(db.votes, VoteAction.KeyOfRequest(req)) == None
    requires req.user in db.users && req.user != TargetAuthor(db, req.targetType, req.targetId)
    requires TargetAuthor(db, req.targetType, req.targetId) in db.users
    requires TargetAuthor(db, req.targetType, req.targetId) != []
    ensures var r2 := VoteAction.VoteCast(VoteAction.VoteCast(db, req).db, req).db;
      var done := DeferredRun(DeferredRun(r2));
      var author := TargetAuthor(db, req.targetType, req.targetId);
      && done.votes == db.votes && done.pending == []
      && done.users[author].reputation == db.users[author].reputation + 20
      && done.users[req.user].reputation == db.users[req.user].reputation + 4
  {
    var r2 := VoteAction.VoteCast(VoteAction.VoteCast(db, req).db, req).db;
    var ir := VoteAction.VoteInteraction(db, req);
    VoteAction.CastTwiceFromNone(db, req);
    CastTwiceQueues(db, req);
    assert r2.pending == [ir, ir];
    RunTwo(r2, ir);
    TwoUpvotes(db.users, req.user, ir.authorId, req.targetType);
  }

  /** Two upvotes by another user give its author 20 points and the voter 4. */
  lemma TwoUpvotes(users: map<Id, User>, voter: Id, author: Id, target: TargetType)
    requires voter in users && author in users && voter != author
    ensures var done := ReputationApplied(ReputationApplied(users, voter, author, Upvote, target), voter, author, Upvote, target);
      && done[author].reputation == users[author].reputation + 20
      && done[voter].reputation == users[voter].reputation + 4
  {
    var once := ReputationApplied(users, voter, author, Upvote, target);
    assert once[author].reputation == users[author].reputation + 10;
    assert once[voter].reputation == users[voter].reputation + 2;
  }

  // ---------------------------------------------------------------------
  // The actions on a store

  /** The switch of `updateReputation`, on two local counters that start at zero. */
  method PointsFor(action: Action, target: TargetType) returns (performerPoints: int, authorPoints: int)
    ensures performerPoints == PerformerPoints(action) && authorPoints == AuthorPoints(action, target)
  {
    performerPoints, authorPoints := 0, 0;
    match action {
      case Upvote =>
        performerPoints := performerPoints + 2;
        authorPoints := authorPoints + 10;
      case Downvote =>
        performerPoints := performerPoints - 1;
        authorPoints := authorPoints - 2;
      case Post =>
        authorPoints := authorPoints + (if target == OnQuestion then 5 else 10);
      case Delete =>
        authorPoints := authorPoints - (if target == OnQuestion then 5 else 10);
      case _ =>
    }
  }

  /** One `updateOne` with `$inc: { reputation: points }`. */
  method IncUserReputation(db: Store, id: Id, points: int)
    modifies db
    ensures db.users == IncReputation(old(db.users), id, points)
    ensures db.questions == old(db.questions) && db.answers == old(db.answers) && db.votes == old(db.votes)
    ensures db.accounts == old(db.accounts) && db.interactions == old(db.interactions) && db.pending == old(db.pending)
  {
    if id in db.users {
      var u := db.users[id];
      db.users := db.users[id := u.(reputation := u.reputation + points)];
    }
  }

  /** `updateReputation` on a store: the points are chosen by a switch, then applied. */
  method UpdateReputation(db: Store, interaction: Interaction, performer: Id, author: Id)
    modifies db
    ensures db.users == ReputationApplied(old(db.users), performer, author, interaction.action, interaction.actionType)
    ensures db.questions == old(db.questions) && db.answers == old(db.answers) && db.votes == old(db.votes)
    ensures db.accounts == old(db.accounts) && db.interactions == old(db.interactions) && db.pending == old(db.pending)
  {
    var performerPoints, authorPoints := PointsFor(interaction.action, interaction.actionType);
    if performer == author {
      IncUserReputation(db, performer, authorPoints);
      return;
    }
    IncUserReputation(db, performer, performerPoints);
    IncUserReputation(db, author, authorPoints);
  }

  /** `createInteraction` inside one transaction; nothing fails once validation passed. */
  method CreateInteraction(db: Store, req: InteractionRequest) returns (result: Result<Interaction>)
    modifies db
    ensures Step(db.Snapshot(), result) == InteractionCreated(old(db.Snapshot()), req)
  {
    var issues := Validation.CreateInteractionIssues(req.actionId, req.authorId);
    if issues != [] {
      result := Err(ValidationError(VoteAction.FirstIssuePath(issues)));
      return;
    }
    var interaction := Interaction(req.performer, req.action, req.actionId, req.actionTarget);
    db.interactions := db.interactions + [interaction];
    UpdateReputation(db, interaction, req.performer, req.authorId);
    result := Ok(interaction);
  }

  /** Takes the oldest deferred call off the queue and runs it. */
  method RunNextDeferred(db: Store)
    modifies db
    ensures db.Snapshot() == DeferredRun(old(db.Snapshot()))
  {
    if db.pending == [] {
      return;
    }
    var req := db.pending[0];
    db.pending := db.pending[1..];
    var ignored := CreateInteraction(db, req);
  }
}
