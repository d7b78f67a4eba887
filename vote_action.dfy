/**
 * The vote ledger: `createVote`, `updateVoteCount` and `hasVoted`.
 *
 * A voter holds at most one vote per target. Casting a vote creates it,
 * casting the same vote again retracts it, casting the opposite vote flips
 * it; each change moves the target's `upvotes`/`downvotes` by one to match,
 * and every successful cast schedules one interaction for the reputation
 * table. `VoteCast` is the intended behaviour (see `VoteCastAsWritten` for the
 * comparison the code actually makes); `CreateVote` performs it step by step
 * on a `Store`.
 */
module VoteAction {
  import opened Model
  import opened Database
  import Validation

  datatype VoteRequest = VoteRequest(user: Id, targetId: Id, targetType: TargetType, voteType: VoteType)

  function Other(vt: VoteType): VoteType {
    match vt
    case Up => Down
    case Down => Up
  }

  function KeyOfRequest(req: VoteRequest): VoteKey {
    VoteKey(req.user, req.targetId, req.targetType)
  }

  function FirstIssuePath(issues: seq<Validation.Issue>): string {
    if issues == [] then "" else issues[0].path
  }

  // ---------------------------------------------------------------------
  // Finding a vote

  /** `Vote.findOne({ author, actionId, actionType })`: the first vote with that key. */
  function FindVote(votes: seq<Vote>, key: VoteKey): (r: Option<nat>)
    ensures r.Some? ==> r.value < |votes| && KeyOf(votes[r.value]) == key
    ensures r.Some? ==> forall j :: 0 <= j < r.value ==> KeyOf(votes[j]) != key
    ensures r.None? ==> forall j :: 0 <= j < |votes| ==> KeyOf(votes[j]) != key
  {
    if votes == [] then None
    else if KeyOf(votes[0]) == key then Some(0)
    else
      match FindVote(votes[1..], key)
      case None => None
      case Some(i) => Some(i + 1)
  }

  /** The vote a voter holds on a target, if any. */
  function Ballot(votes: seq<Vote>, key: VoteKey): Option<VoteType> {
    match FindVote(votes, key)
    case None => None
    case Some(i) => Some(votes[i].voteType)
  }

  /** With unique keys, the ballot of a key is the type of the one vote carrying it. */
  lemma BallotAt(votes: seq<Vote>, i: nat)
    requires UniqueKeys(votes) && i < |votes|
    ensures Ballot(votes, KeyOf(votes[i])) == Some(votes[i].voteType)
  {
    assert forall j :: 0 <= j < |votes| && j != i ==> KeyOf(votes[j]) != KeyOf(votes[i]);
  }

  lemma BallotNone(votes: seq<Vote>, key: VoteKey)
    requires forall j :: 0 <= j < |votes| ==> KeyOf(votes[j]) != key
    ensures Ballot(votes, key) == None
  {
  }

  function RemoveAt(votes: seq<Vote>, i: nat): (r: seq<Vote>)
    requires i < |votes|
    ensures |r| == |votes| - 1
    ensures forall j :: 0 <= j < i ==> r[j] == votes[j]
    ensures forall j :: i <= j < |r| ==> r[j] == votes[j + 1]
  {
    votes[..i] + votes[i + 1..]
  }

  // ---------------------------------------------------------------------
  // Counters

  /**
   * `r` holds the same documents as `db` except, possibly, the vote counters
   * of the one target (tt, id); votes and the deferred queue are not compared.
   */
  ghost predicate OnlyCountersOf(db: Db, r: Db, tt: TargetType, id: Id) {
    && r.users == db.users && r.accounts == db.accounts && r.interactions == db.interactions
    && r.questions.Keys == db.questions.Keys && r.answers.Keys == db.answers.Keys
    && (forall q :: q in db.questions && (tt != OnQuestion || q != id) ==> r.questions[q] == db.questions[q])
    && (forall a :: a in db.answers && (tt != OnAnswer || a != id) ==> r.answers[a] == db.answers[a])
    && (tt == OnQuestion && id in db.questions ==>
          r.questions[id] == db.questions[id].(upvotes := r.questions[id].upvotes,
                                               downvotes := r.questions[id].downvotes))
    && (tt == OnAnswer && id in db.answers ==>
          r.answers[id] == db.answers[id].(upvotes := r.answers[id].upvotes,
                                           downvotes := r.answers[id].downvotes))
  }

  /** `$inc: { [voteField]: change }` on a target that exists. */
  function IncCounter(db: Db, tt: TargetType, id: Id, vt: VoteType, change: int): (r: Db)
    requires TargetExists(db, tt, id)
    ensures TargetExists(r, tt, id)
    ensures Counter(r, tt, id, vt) == Counter(db, tt, id, vt) + change
    ensures Counter(r, tt, id, Other(vt)) == Counter(db, tt, id, Other(vt))
    ensures OnlyCountersOf(db, r, tt, id) && r.votes == db.votes && r.pending == db.pending
  {
    match tt
    case OnQuestion =>
      var q := db.questions[id];
      var q' := if vt == Up then q.(upvotes := q.upvotes + change) else q.(downvotes := q.downvotes + change);
      db.(questions := db.questions[id := q'])
    case OnAnswer =>
      var a := db.answers[id];
      var a' := if vt == Up then a.(upvotes := a.upvotes + change) else a.(downvotes := a.downvotes + change);
      db.(answers := db.answers[id := a'])
  }

  /**
   * `updateVoteCount`: validate `change`, then add it to `upvotes` for an
   * upvote and to `downvotes` for a downvote. A missing target is reported as
   * an error response, not thrown.
   */
  function VoteCountUpdated(db: Db, targetId: Id, tt: TargetType, vt: VoteType, change: int): (r: Step<()>)
    ensures Validation.UpdateVoteIssues(targetId, change) != [] ==> r.db == db && r.result.Err?
    ensures !TargetExists(db, tt, targetId) ==> r.db == db && r.result.Err?
    ensures r.result.Ok? <==> targetId != [] && change in {-1, 0, 1} && TargetExists(db, tt, targetId)
    ensures r.result.Ok? ==>
      && TargetExists(r.db, tt, targetId)
      && Counter(r.db, tt, targetId, vt) == Counter(db, tt, targetId, vt) + change
      && Counter(r.db, tt, targetId, Other(vt)) == Counter(db, tt, targetId, Other(vt))
      && OnlyCountersOf(db, r.db, tt, targetId) && r.db.votes == db.votes && r.db.pending == db.pending
  {
    var issues := Validation.UpdateVoteIssues(targetId, change);
    if issues != [] then Step(db, Err(ValidationError(FirstIssuePath(issues))))
    else if !TargetExists(db, tt, targetId) then Step(db, Err(TargetNotFound))
    else Step(IncCounter(db, tt, targetId, vt, change), Ok(()))
  }

  // ---------------------------------------------------------------------
  // Casting a vote

  /** The interaction every successful cast schedules. */
  function VoteInteraction(db: Db, req: VoteRequest): InteractionRequest
    requires TargetExists(db, req.targetType, req.targetId)
  {
    InteractionRequest(req.user, ActionOf(req.voteType), req.targetId, req.targetType,
                       TargetAuthor(db, req.targetType, req.targetId))
  }

  /** The vote list and the counters after the intended `createVote` on an existing target. */
  function BallotApplied(db: Db, req: VoteRequest): (r: Db)
    requires TargetExists(db, req.targetType, req.targetId)
    ensures
      var tt, id, vt := req.targetType, req.targetId, req.voteType;
      && TargetExists(r, tt, id)
      && OnlyCountersOf(db, r, tt, id)
      && r.pending == db.pending
      && match FindVote(db.votes, KeyOfRequest(req))
         case None =>
           && r.votes == db.votes + [Vote(req.user, id, tt, vt)]
           && Counter(r, tt, id, vt) == Counter(db, tt, id, vt) + 1
           && Counter(r, tt, id, Other(vt)) == Counter(db, tt, id, Other(vt))
         case Some(i) =>
           if db.votes[i].voteType == vt then
             && r.votes == RemoveAt(db.votes, i)
             && Counter(r, tt, id, vt) == Counter(db, tt, id, vt) - 1
             && Counter(r, tt, id, Other(vt)) == Counter(db, tt, id, Other(vt))
           else
             && r.votes == db.votes[i := db.votes[i].(voteType := vt)]
             && Counter(r, tt, id, vt) == Counter(db, tt, id, vt) + 1
             && Counter(r, tt, id, Other(vt)) == Counter(db, tt, id, Other(vt)) - 1
  {
    var tt, id, vt := req.targetType, req.targetId, req.voteType;
    match FindVote(db.votes, KeyOfRequest(req))
    case Some(i) =>
      if db.votes[i].voteType == vt then
        IncCounter(db.(votes := RemoveAt(db.votes, i)), tt, id, vt, -1)
      else
        var flipped := db.(votes := db.votes[i := db.votes[i].(voteType := vt)]);
        IncCounter(IncCounter(flipped, tt, id, db.votes[i].voteType, -1), tt, id, vt, 1)
    case None =>
      IncCounter(db.(votes := db.votes + [Vote(req.user, id, tt, vt)]), tt, id, vt, 1)
  }

  /** `createVote` as intended: retract a repeated vote, flip an opposite one, else create. */
  function VoteCast(db: Db, req: VoteRequest): (r: Step<()>)
    ensures !(req.targetId != [] && TargetExists(db, req.targetType, req.targetId)) ==> r.db == db
    ensures req.targetId != [] && !TargetExists(db, req.targetType, req.targetId) ==>
      r.result == Err(NotFound(TargetLabel(req.targetType)))
    ensures r.result.Ok? <==> req.targetId != [] && TargetExists(db, req.targetType, req.targetId)
    ensures r.result.Ok? ==>
      var tt, id, vt := req.targetType, req.targetId, req.voteType;
      && TargetExists(r.db, tt, id)
      && OnlyCountersOf(db, r.db, tt, id)
      && r.db.pending == db.pending + [VoteInteraction(db, req)]
      && match FindVote(db.votes, KeyOfRequest(req))
         case None =>
           && r.db.votes == db.votes + [Vote(req.user, id, tt, vt)]
           && Counter(r.db, tt, id, vt) == Counter(db, tt, id, vt) + 1
           && Counter(r.db, tt, id, Other(vt)) == Counter(db, tt, id, Other(vt))
         case Some(i) =>
           if db.votes[i].voteType == vt then
             && r.db.votes == RemoveAt(db.votes, i)
             && Counter(r.db, tt, id, vt) == Counter(db, tt, id, vt) - 1
             && Counter(r.db, tt, id, Other(vt)) == Counter(db, tt, id, Other(vt))
           else
             && r.db.votes == db.votes[i := db.votes[i].(voteType := vt)]
             && Counter(r.db, tt, id, vt) == Counter(db, tt, id, vt) + 1
             && Counter(r.db, tt, id, Other(vt)) == Counter(db, tt, id, Other(vt)) - 1
  {
    var tt, id := req.targetType, req.targetId;
    var issues := Validation.CreateVoteIssues(id);
    if issues != [] then Step(db, Err(ValidationError(FirstIssuePath(issues))))
    else if !TargetExists(db, tt, id) then Step(db, Err(NotFound(TargetLabel(tt))))
    else
      var db1 := BallotApplied(db, req);
      Step(db1.(pending := db1.pending + [VoteInteraction(db, req)]), Ok(()))
  }

  /**
   * `createVote` as written: the guard reads `existingVote.type`, a field vote
   * documents do not have, so it is never equal to the requested type and an
   * existing vote always takes the flip branch.
   */
  function VoteCastAsWritten(db: Db, req: VoteRequest): (r: Step<()>)
    ensures r.result == VoteCast(db, req).result
    ensures Ballot(db.votes, KeyOfRequest(req)) != Some(req.voteType) ==> r == VoteCast(db, req)
  {
    var tt, id, vt := req.targetType, req.targetId, req.voteType;
    var issues := Validation.CreateVoteIssues(id);
    if issues != [] then Step(db, Err(ValidationError(FirstIssuePath(issues))))
    else if !TargetExists(db, tt, id) then Step(db, Err(NotFound(TargetLabel(tt))))
    else
      var db1 :=
        match FindVote(db.votes, KeyOfRequest(req))
        case Some(i) =>
          var flipped := db.(votes := db.votes[i := db.votes[i].(voteType := vt)]);
          IncCounter(IncCounter(flipped, tt, id, db.votes[i].voteType, -1), tt, id, vt, 1)
        case None =>
          IncCounter(db.(votes := db.votes + [Vote(req.user, id, tt, vt)]), tt, id, vt, 1);
      Step(db1.(pending := db1.pending + [VoteInteraction(db, req)]), Ok(()))
  }

  /**
   * As written, repeating a vote retracts nothing: the vote stays and both
   * counters end where they started, whereas the intended cast removes the
   * vote and lowers the counter.
   */
  lemma RepeatedVoteNotRetractedAsWritten(db: Db, req: VoteRequest)
    requires req.targetId != [] && TargetExists(db, req.targetType, req.targetId)
    requires Ballot(db.votes, KeyOfRequest(req)) == Some(req.voteType)
    ensures var w := VoteCastAsWritten(db, req).db;
      && w.votes == db.votes
      && Counter(w, req.targetType, req.targetId, Up) == Counter(db, req.targetType, req.targetId, Up)
      && Counter(w, req.targetType, req.targetId, Down) == Counter(db, req.targetType, req.targetId, Down)
    ensures var c := VoteCast(db, req).db;
      && |c.votes| == |db.votes| - 1
      && Counter(c, req.targetType, req.targetId, req.voteType)
         == Counter(db, req.targetType, req.targetId, req.voteType) - 1
  {
    var i := FindVote(db.votes, KeyOfRequest(req)).value;
    assert db.votes[i := db.votes[i].(voteType := req.voteType)] == db.votes;
  }

  /** The ledger holds exactly the votes `VoteCast` leaves behind, so the two differ on this input. */
  lemma AsWrittenDiffersOnRepeat(db: Db, req: VoteRequest)
    requires req.targetId != [] && TargetExists(db, req.targetType, req.targetId)
    requires Ballot(db.votes, KeyOfRequest(req)) == Some(req.voteType)
    ensures VoteCastAsWritten(db, req).db != VoteCast(db, req).db
  {
    RepeatedVoteNotRetractedAsWritten(db, req);
  }

  // ---------------------------------------------------------------------
  // What a cast does to the ledger

  /** Appending a vote with a new key: the keys stay unique, the new key finds it, every other key is unaffected. */
  lemma BallotsAfterAppend(vs: seq<Vote>, v: Vote)
    requires UniqueKeys(vs) && forall j :: 0 <= j < |vs| ==> KeyOf(vs[j]) != KeyOf(v)
    ensures UniqueKeys(vs + [v])
    ensures Ballot(vs + [v], KeyOf(v)) == Some(v.voteType)
    ensures forall k :: k != KeyOf(v) ==> Ballot(vs + [v], k) == Ballot(vs, k)
  {
    var ws := vs + [v];
    assert UniqueKeys(ws) by {
      forall i, j | 0 <= i < j < |ws| ensures KeyOf(ws[i]) != KeyOf(ws[j]) {
        if j == |vs| { assert KeyOf(ws[i]) == KeyOf(vs[i]); }
      }
    }
    BallotAt(ws, |vs|);
    forall k | k != KeyOf(v) ensures Ballot(ws, k) == Ballot(vs, k) {
      var f := FindVote(vs, k);
      if f.Some? {
        BallotAt(vs, f.value);
        BallotAt(ws, f.value);
      } else {
        BallotNone(ws, k);
      }
    }
  }

  /** Removing the vote at `i`: the keys stay unique, its key finds nothing, every other key is unaffected. */
  lemma BallotsAfterRemove(vs: seq<Vote>, i: nat)
    requires UniqueKeys(vs) && i < |vs|
    ensures UniqueKeys(RemoveAt(vs, i))
    ensures Ballot(RemoveAt(vs, i), KeyOf(vs[i])) == None
    ensures forall k :: k != KeyOf(vs[i]) ==> Ballot(RemoveAt(vs, i), k) == Ballot(vs, k)
  {
    var ws, key := RemoveAt(vs, i), KeyOf(vs[i]);
    assert UniqueKeys(ws) by {
      forall a, b | 0 <= a < b < |ws| ensures KeyOf(ws[a]) != KeyOf(ws[b]) {
        var a', b' := if a < i then a else a + 1, if b < i then b else b + 1;
        assert ws[a] == vs[a'] && ws[b] == vs[b'];
      }
    }
    forall j | 0 <= j < |ws| ensures KeyOf(ws[j]) != key {
      var j' := if j < i then j else j + 1;
      assert ws[j] == vs[j'];
    }
    BallotNone(ws, key);
    forall k | k != key ensures Ballot(ws, k) == Ballot(vs, k) {
      var f := FindVote(vs, k);
      if f.Some? {
        var m := f.value;
        var m' := if m < i then m else m - 1;
        assert ws[m'] == vs[m];
        BallotAt(vs, m);
        BallotAt(ws, m');
      } else {
        forall j | 0 <= j < |ws| ensures KeyOf(ws[j]) != k {
          var j' := if j < i then j else j + 1;
          assert ws[j] == vs[j'];
        }
        BallotNone(ws, k);
      }
    }
  }

  /** Changing the type of the vote at `i`: the keys stay unique, its key finds the new type, every other key is unaffected. */
  lemma BallotsAfterFlip(vs: seq<Vote>, i: nat, vt: VoteType)
    requires UniqueKeys(vs) && i < |vs|
    ensures UniqueKeys(vs[i := vs[i].(voteType := vt)])
    ensures Ballot(vs[i := vs[i].(voteType := vt)], KeyOf(vs[i])) == Some(vt)
    ensures forall k :: k != KeyOf(vs[i]) ==> Ballot(vs[i := vs[i].(voteType := vt)], k) == Ballot(vs, k)
  {
    var ws := vs[i := vs[i].(voteType := vt)];
    assert forall j :: 0 <= j < |ws| ==> KeyOf(ws[j]) == KeyOf(vs[j]);
    assert UniqueKeys(ws);
    BallotAt(ws, i);
    forall k | k != KeyOf(vs[i]) ensures Ballot(ws, k) == Ballot(vs, k) {
      var f := FindVote(vs, k);
      if f.Some? {
        BallotAt(vs, f.value);
        BallotAt(ws, f.value);
      } else {
        BallotNone(ws, k);
      }
    }
  }

  /** The vote a voter holds after a cast, for the voter's key and for every other key. */
  lemma {:induction false} VoteCastToggles(db: Db, req: VoteRequest)
    requires UniqueKeys(db.votes)
    requires req.targetId != [] && TargetExists(db, req.targetType, req.targetId)
    ensures var r := VoteCast(db, req).db;
      && UniqueKeys(r.votes)
      && Ballot(r.votes, KeyOfRequest(req))
         == (if Ballot(db.votes, KeyOfRequest(req)) == Some(req.voteType) then None else Some(req.voteType))
      && forall k :: k != KeyOfRequest(req) ==> Ballot(r.votes, k) == Ballot(db.votes, k)
  {
    var key := KeyOfRequest(req);
    var vs := db.votes;
    match FindVote(vs, key)
    case None =>
      BallotsAfterAppend(vs, Vote(req.user, req.targetId, req.targetType, req.voteType));
    case Some(i) =>
      if vs[i].voteType == req.voteType {
        BallotsAfterRemove(vs, i);
      } else {
        BallotsAfterFlip(vs, i, req.voteType);
      }
  }

  // Counting after each kind of change to the vote collection

  lemma CountAppend(vs: seq<Vote>, v: Vote, id: Id, tt: TargetType, vt: VoteType)
    ensures CountVotes(vs + [v], id, tt, vt) == CountVotes(vs, id, tt, vt) + (if CountsFor(v, id, tt, vt) then 1 else 0)
  {
    assert (vs + [v])[..|vs|] == vs;
  }

  lemma CountRemoveAt(vs: seq<Vote>, i: nat, id: Id, tt: TargetType, vt: VoteType)
    requires i < |vs|
    ensures CountVotes(RemoveAt(vs, i), id, tt, vt) + (if CountsFor(vs[i], id, tt, vt) then 1 else 0)
            == CountVotes(vs, id, tt, vt)
  {
    CountVotesAround(vs, i, id, tt, vt);
    CountVotesConcat(vs[..i], vs[i + 1..], id, tt, vt);
  }

  lemma CountReplace(vs: seq<Vote>, i: nat, v: Vote, id: Id, tt: TargetType, vt: VoteType)
    requires i < |vs|
    ensures CountVotes(vs[i := v], id, tt, vt) + (if CountsFor(vs[i], id, tt, vt) then 1 else 0)
            == CountVotes(vs, id, tt, vt) + (if CountsFor(v, id, tt, vt) then 1 else 0)
  {
    var ws := vs[i := v];
    CountVotesAround(vs, i, id, tt, vt);
    CountVotesAround(ws, i, id, tt, vt);
    assert ws[..i] == vs[..i] && ws[i + 1..] == vs[i + 1..];
  }

  /**
   * When only the counters of one target change, and they change exactly as
   * the votes on it do while the votes on every other target stay as they
   * were, the tally is kept.
   */
  lemma TallyMoves(db: Db, r: Db, tt0: TargetType, id0: Id)
    requires Tallied(db) && TargetExists(db, tt0, id0) && OnlyCountersOf(db, r, tt0, id0)
    requires TargetExists(r, tt0, id0)
    requires forall vt :: Counter(r, tt0, id0, vt) - Counter(db, tt0, id0, vt)
                          == CountVotes(r.votes, id0, tt0, vt) - CountVotes(db.votes, id0, tt0, vt)
    requires forall id, tt, vt :: (tt != tt0 || id != id0) ==> CountVotes(r.votes, id, tt, vt) == CountVotes(db.votes, id, tt, vt)
    ensures Tallied(r)
  {
    forall tt, id, vt | TargetExists(r, tt, id)
      ensures Counter(r, tt, id, vt) == CountVotes(r.votes, id, tt, vt)
    {
      assert TargetExists(db, tt, id);
    }
  }

  lemma TallyAfterCreate(db: Db, r: Db, v: Vote)
    requires Tallied(db) && TargetExists(db, v.actionType, v.actionId)
    requires OnlyCountersOf(db, r, v.actionType, v.actionId) && TargetExists(r, v.actionType, v.actionId)
    requires r.votes == db.votes + [v]
    requires Counter(r, v.actionType, v.actionId, v.voteType) == Counter(db, v.actionType, v.actionId, v.voteType) + 1
    requires Counter(r, v.actionType, v.actionId, Other(v.voteType)) == Counter(db, v.actionType, v.actionId, Other(v.voteType))
    ensures Tallied(r)
  {
    forall id, tt, vt ensures CountVotes(r.votes, id, tt, vt) == CountVotes(db.votes, id, tt, vt) + (if CountsFor(v, id, tt, vt) then 1 else 0) {
      CountAppend(db.votes, v, id, tt, vt);
    }
    TallyMoves(db, r, v.actionType, v.actionId);
  }

  lemma TallyAfterRetract(db: Db, r: Db, i: nat)
    requires i < |db.votes|
    requires Tallied(db) && TargetExists(db, db.votes[i].actionType, db.votes[i].actionId)
    requires OnlyCountersOf(db, r, db.votes[i].actionType, db.votes[i].actionId)
    requires TargetExists(r, db.votes[i].actionType, db.votes[i].actionId)
    requires r.votes == RemoveAt(db.votes, i)
    requires var v := db.votes[i];
      && Counter(r, v.actionType, v.actionId, v.voteType) == Counter(db, v.actionType, v.actionId, v.voteType) - 1
      && Counter(r, v.actionType, v.actionId, Other(v.voteType)) == Counter(db, v.actionType, v.actionId, Other(v.voteType))
    ensures Tallied(r)
  {
    var v := db.votes[i];
    forall id, tt, vt ensures CountVotes(r.votes, id, tt, vt) + (if CountsFor(v, id, tt, vt) then 1 else 0) == CountVotes(db.votes, id, tt, vt) {
      CountRemoveAt(db.votes, i, id, tt, vt);
    }
    TallyMoves(db, r, v.actionType, v.actionId);
  }

  lemma TallyAfterFlip(db: Db, r: Db, i: nat, vt0: VoteType)
    requires i < |db.votes| && db.votes[i].voteType == Other(vt0)
    requires Tallied(db) && TargetExists(db, db.votes[i].actionType, db.votes[i].actionId)
    requires OnlyCountersOf(db, r, db.votes[i].actionType, db.votes[i].actionId)
    requires TargetExists(r, db.votes[i].actionType, db.votes[i].actionId)
    requires r.votes == db.votes[i := db.votes[i].(voteType := vt0)]
    requires var v := db.votes[i];
      && Counter(r, v.actionType, v.actionId, vt0) == Counter(db, v.actionType, v.actionId, vt0) + 1
      && Counter(r, v.actionType, v.actionId, Other(vt0)) == Counter(db, v.actionType, v.actionId, Other(vt0)) - 1
    ensures Tallied(r)
  {
    var v := db.votes[i];
    var w := v.(voteType := vt0);
    forall id, tt, vt
      ensures CountVotes(r.votes, id, tt, vt) + (if CountsFor(v, id, tt, vt) then 1 else 0)
              == CountVotes(db.votes, id, tt, vt) + (if CountsFor(w, id, tt, vt) then 1 else 0)
    {
      CountReplace(db.votes, i, w, id, tt, vt);
    }
    TallyMoves(db, r, v.actionType, v.actionId);
  }

  /** Counter changes keep every counter equal to the number of votes behind it. */
  lemma VoteCastKeepsTally(db: Db, req: VoteRequest)
    requires Tallied(db)
    ensures Tallied(VoteCast(db, req).db)
  {
    var r := VoteCast(db, req).db;
    if req.targetId != [] && TargetExists(db, req.targetType, req.targetId) {
      match FindVote(db.votes, KeyOfRequest(req))
      case None =>
        TallyAfterCreate(db, r, Vote(req.user, req.targetId, req.targetType, req.voteType));
      case Some(i) =>
        if db.votes[i].voteType == req.voteType {
          TallyAfterRetract(db, r, i);
        } else {
          assert db.votes[i].voteType == Other(req.voteType) by {
            assert req.voteType == Up || req.voteType == Down;
          }
          TallyAfterFlip(db, r, i, req.voteType);
        }
    }
  }

  /** Votes only ever point at existing targets, or at the target of the cast. */
  lemma LiveAfter(db: Db, r: Db, tt0: TargetType, id0: Id)
    requires VotesOnLiveTargets(db) && TargetExists(db, tt0, id0)
    requires r.questions.Keys == db.questions.Keys && r.answers.Keys == db.answers.Keys
    requires forall i :: 0 <= i < |r.votes| ==>
      (r.votes[i].actionType == tt0 && r.votes[i].actionId == id0) || r.votes[i] in db.votes
    ensures VotesOnLiveTargets(r)
  {
    forall i | 0 <= i < |r.votes|
      ensures TargetExists(r, r.votes[i].actionType, r.votes[i].actionId)
    {
      if r.votes[i] in db.votes {
        var j :| 0 <= j < |db.votes| && db.votes[j] == r.votes[i];
        assert TargetExists(db, db.votes[j].actionType, db.votes[j].actionId);
      }
    }
  }

  /** Changing vote counters leaves the answer counts alone. */
  lemma CountersKeepAnswersCounted(db: Db, r: Db, tt: TargetType, id: Id)
    requires AnswersCounted(db) && OnlyCountersOf(db, r, tt, id)
    ensures AnswersCounted(r)
  {
    forall q | q in r.questions ensures r.questions[q].answers == |AnswerIdsOf(r.answers, q)| {
      assert AnswerIdsOf(r.answers, q) == AnswerIdsOf(db.answers, q);
    }
  }

  lemma VoteCastKeepsLive(db: Db, req: VoteRequest)
    requires VotesOnLiveTargets(db)
    ensures VotesOnLiveTargets(VoteCast(db, req).db)
  {
    var r := VoteCast(db, req).db;
    var tt, id := req.targetType, req.targetId;
    if id != [] && TargetExists(db, tt, id) {
      match FindVote(db.votes, KeyOfRequest(req))
      case None =>
        forall i | 0 <= i < |r.votes| ensures (r.votes[i].actionType == tt && r.votes[i].actionId == id) || r.votes[i] in db.votes {
          if i < |db.votes| { assert r.votes[i] == db.votes[i]; }
        }
        LiveAfter(db, r, tt, id);
      case Some(m) =>
        if db.votes[m].voteType == req.voteType {
          forall i | 0 <= i < |r.votes| ensures r.votes[i] in db.votes {
            var i' := if i < m then i else i + 1;
            assert r.votes[i] == db.votes[i'];
          }
        } else {
          forall i | 0 <= i < |r.votes| ensures (r.votes[i].actionType == tt && r.votes[i].actionId == id) || r.votes[i] in db.votes {
            if i != m { assert r.votes[i] == db.votes[i]; }
          }
        }
        LiveAfter(db, r, tt, id);
    }
  }

  /** A cast keeps the store consistent. */
  lemma VoteCastKeepsConsistent(db: Db, req: VoteRequest)
    requires Consistent(db)
    ensures Consistent(VoteCast(db, req).db)
  {
    var r := VoteCast(db, req).db;
    if req.targetId != [] && TargetExists(db, req.targetType, req.targetId) {
      VoteCastToggles(db, req);
      CountersKeepAnswersCounted(db, r, req.targetType, req.targetId);
    }
    VoteCastKeepsTally(db, req);
    VoteCastKeepsLive(db, req);
  }

  /** How a cast moves the two counters of its target, in terms of the voter's previous vote. */
  lemma CastCounters(db: Db, req: VoteRequest)
    requires req.targetId != [] && TargetExists(db, req.targetType, req.targetId)
    ensures var r, tt, id, vt := VoteCast(db, req).db, req.targetType, req.targetId, req.voteType;
      var b := Ballot(db.votes, KeyOfRequest(req));
      && Counter(r, tt, id, vt) == Counter(db, tt, id, vt) + (if b == Some(vt) then -1 else 1)
      && Counter(r, tt, id, Other(vt)) == Counter(db, tt, id, Other(vt)) - (if b == Some(Other(vt)) then 1 else 0)
  {
    assert req.voteType == Up || req.voteType == Down;
  }

  lemma OnlyCountersTrans(a: Db, b: Db, c: Db, tt: TargetType, id: Id)
    requires OnlyCountersOf(a, b, tt, id) && OnlyCountersOf(b, c, tt, id)
    ensures OnlyCountersOf(a, c, tt, id)
  {
  }

  /** When the target's two counters are back where they were, so are all documents. */
  lemma CountersRestored(a: Db, c: Db, tt: TargetType, id: Id)
    requires OnlyCountersOf(a, c, tt, id) && TargetExists(a, tt, id) && TargetExists(c, tt, id)
    requires Counter(c, tt, id, Up) == Counter(a, tt, id, Up) && Counter(c, tt, id, Down) == Counter(a, tt, id, Down)
    ensures c.questions == a.questions && c.answers == a.answers
  {
    if tt == OnQuestion {
      assert c.questions[id] == a.questions[id];
    } else {
      assert c.answers[id] == a.answers[id];
    }
  }

  /** A fresh vote cast twice leaves the vote collection as it was. */
  lemma CastTwiceFromNone(db: Db, req: VoteRequest)
    requires req.targetId != [] && TargetExists(db, req.targetType, req.targetId)
    requires FindVote(db.votes, KeyOfRequest(req)) == None
    ensures VoteCast(VoteCast(db, req).db, req).db.votes == db.votes
  {
    var r1 := VoteCast(db, req).db;
    var key := KeyOfRequest(req);
    var v := Vote(req.user, req.targetId, req.targetType, req.voteType);
    assert r1.votes == db.votes + [v];
    var f := FindVote(r1.votes, key);
    assert f == Some(|db.votes|) by {
      assert KeyOf(r1.votes[|db.votes|]) == key;
      assert forall j :: 0 <= j < |db.votes| ==> r1.votes[j] == db.votes[j];
    }
    assert RemoveAt(r1.votes, |db.votes|) == db.votes;
  }

  /**
   * Casting the same vote twice restores the counters and every voter's vote;
   * when the voter held no vote, the vote collection is restored exactly.
   * (Starting from the opposite vote it is not: that vote is flipped, then
   * retracted.)
   */
  lemma CastTwiceRestores(db: Db, req: VoteRequest)
    requires UniqueKeys(db.votes)
    requires req.targetId != [] && TargetExists(db, req.targetType, req.targetId)
    requires Ballot(db.votes, KeyOfRequest(req)) != Some(Other(req.voteType))
    ensures var r2 := VoteCast(VoteCast(db, req).db, req).db;
      && r2.questions == db.questions && r2.answers == db.answers
      && (forall k :: Ballot(r2.votes, k) == Ballot(db.votes, k))
      && (Ballot(db.votes, KeyOfRequest(req)) == None ==> r2.votes == db.votes)
  {
    CastTwiceKeepsTables(db, req);
    CastTwiceKeepsBallots(db, req);
    if Ballot(db.votes, KeyOfRequest(req)) == None {
      CastTwiceFromNone(db, req);
    }
  }

  lemma CastTwiceKeepsTables(db: Db, req: VoteRequest)
    requires UniqueKeys(db.votes)
    requires req.targetId != [] && TargetExists(db, req.targetType, req.targetId)
    requires Ballot(db.votes, KeyOfRequest(req)) != Some(Other(req.voteType))
    ensures var r2 := VoteCast(VoteCast(db, req).db, req).db;
      r2.questions == db.questions && r2.answers == db.answers
  {
    var r1 := VoteCast(db, req).db;
    var r2 := VoteCast(r1, req).db;
    CastCounters(db, req);
    CastCounters(r1, req);
    VoteCastToggles(db, req);
    CountersCancel(db, r1, r2, req.targetType, req.targetId, req.voteType,
                   Ballot(db.votes, KeyOfRequest(req)), Ballot(r1.votes, KeyOfRequest(req)));
  }

  /** Two counter moves that undo each other leave the questions and answers as they were. */
  lemma CountersCancel(a: Db, b: Db, c: Db, tt: TargetType, id: Id, vt: VoteType, ba: Option<VoteType>, bb: Option<VoteType>)
    requires OnlyCountersOf(a, b, tt, id) && OnlyCountersOf(b, c, tt, id)
    requires TargetExists(a, tt, id) && TargetExists(c, tt, id)
    requires ba != Some(Other(vt)) && bb == (if ba == Some(vt) then None else Some(vt))
    requires Counter(b, tt, id, vt) == Counter(a, tt, id, vt) + (if ba == Some(vt) then -1 else 1)
    requires Counter(b, tt, id, Other(vt)) == Counter(a, tt, id, Other(vt)) - (if ba == Some(Other(vt)) then 1 else 0)
    requires Counter(c, tt, id, vt) == Counter(b, tt, id, vt) + (if bb == Some(vt) then -1 else 1)
    requires Counter(c, tt, id, Other(vt)) == Counter(b, tt, id, Other(vt)) - (if bb == Some(Other(vt)) then 1 else 0)
    ensures c.questions == a.questions && c.answers == a.answers
  {
    OnlyCountersTrans(a, b, c, tt, id);
    assert vt == Up || vt == Down;
    CountersRestored(a, c, tt, id);
  }

  lemma CastTwiceKeepsBallots(db: Db, req: VoteRequest)
    requires UniqueKeys(db.votes)
    requires req.targetId != [] && TargetExists(db, req.targetType, req.targetId)
    requires Ballot(db.votes, KeyOfRequest(req)) != Some(Other(req.voteType))
    ensures var r2 := VoteCast(VoteCast(db, req).db, req).db;
      forall k :: Ballot(r2.votes, k) == Ballot(db.votes, k)
  {
    var r1 := VoteCast(db, req).db;
    VoteCastToggles(db, req);
    VoteCastToggles(r1, req);
  }

  /** A flip moves one vote from one counter to the other: the total is unchanged. */
  lemma FlipKeepsTotal(db: Db, req: VoteRequest)
    requires req.targetId != [] && TargetExists(db, req.targetType, req.targetId)
    requires Ballot(db.votes, KeyOfRequest(req)) == Some(Other(req.voteType))
    ensures var r := VoteCast(db, req).db;
      Counter(r, req.targetType, req.targetId, Up) + Counter(r, req.targetType, req.targetId, Down)
      == Counter(db, req.targetType, req.targetId, Up) + Counter(db, req.targetType, req.targetId, Down)
  {
    assert req.voteType == Up || req.voteType == Down;
  }

  // ---------------------------------------------------------------------
  // hasVoted

  /**
   * `hasVoted`: no vote gives `success: false` with both flags down; a vote
   * gives `success: true` with exactly the flag of its type raised.
   */
  function HasVoted(votes: seq<Vote>, user: Id, targetId: Id, tt: TargetType): (r: Result<HasVotedResponse>)
    ensures targetId == [] <==> r.Err?
    ensures r.Ok? ==> (r.value.success <==> Ballot(votes, VoteKey(user, targetId, tt)).Some?)
    ensures r.Ok? ==> r.value.hasUpvoted == (Ballot(votes, VoteKey(user, targetId, tt)) == Some(Up))
    ensures r.Ok? ==> r.value.hasDownvoted == (Ballot(votes, VoteKey(user, targetId, tt)) == Some(Down))
    ensures r.Ok? ==> !(r.value.hasUpvoted && r.value.hasDownvoted)
  {
    var issues := Validation.CreateVoteIssues(targetId);
    if issues != [] then Err(ValidationError(FirstIssuePath(issues)))
    else
      match FindVote(votes, VoteKey(user, targetId, tt))
      case None => Ok(HasVotedResponse(false, false, false))
      case Some(i) => Ok(HasVotedResponse(true, votes[i].voteType == Up, votes[i].voteType == Down))
  }

  /** After a fresh vote, `hasVoted` reports it; after a repeated one, it reports none. */
  lemma HasVotedAfterCast(db: Db, req: VoteRequest)
    requires UniqueKeys(db.votes)
    requires req.targetId != [] && TargetExists(db, req.targetType, req.targetId)
    ensures var h := HasVoted(VoteCast(db, req).db.votes, req.user, req.targetId, req.targetType).value;
      if Ballot(db.votes, KeyOfRequest(req)) == Some(req.voteType) then
        !h.success && !h.hasUpvoted && !h.hasDownvoted
      else
        h.success && h.hasUpvoted == (req.voteType == Up) && h.hasDownvoted == (req.voteType == Down)
  {
    VoteCastToggles(db, req);
  }

  // ---------------------------------------------------------------------
  // The actions on a store

  method UpdateVoteCount(db: Store, targetId: Id, tt: TargetType, vt: VoteType, change: int)
    returns (result: Result<()>)
    modifies db
    ensures Step(db.Snapshot(), result) == VoteCountUpdated(old(db.Snapshot()), targetId, tt, vt, change)
  {
    var issues := Validation.UpdateVoteIssues(targetId, change);
    if issues != [] {
      return Err(ValidationError(FirstIssuePath(issues)));
    }
    match tt {
    case OnQuestion =>
      if targetId !in db.questions {
        return Err(TargetNotFound);
      }
      var q := db.questions[targetId];
      if vt == Up {
        q := q.(upvotes := q.upvotes + change);
      } else {
        q := q.(downvotes := q.downvotes + change);
      }
      db.questions := db.questions[targetId := q];
    case OnAnswer =>
      if targetId !in db.answers {
        return Err(TargetNotFound);
      }
      var a := db.answers[targetId];
      if vt == Up {
        a := a.(upvotes := a.upvotes + change);
      } else {
        a := a.(downvotes := a.downvotes + change);
      }
      db.answers := db.answers[targetId := a];
    }
    result := Ok(());
  }

  /**
   * `createVote` inside one transaction. The only failure (a missing target)
   * is found before anything is written, so the abort has nothing to undo.
   * The responses of the `updateVoteCount` calls are ignored, as in the
   * source; here they are always successful.
   */
  method CreateVote(db: Store, req: VoteRequest) returns (result: Result<()>)
    modifies db
    ensures Step(db.Snapshot(), result) == VoteCast(old(db.Snapshot()), req)
  {
    var tt, id, vt := req.targetType, req.targetId, req.voteType;
    var issues := Validation.CreateVoteIssues(id);
    if issues != [] {
      return Err(ValidationError(FirstIssuePath(issues)));
    }
    var found := match tt case OnQuestion => id in db.questions case OnAnswer => id in db.answers;
    if !found {
      return Err(NotFound(TargetLabel(tt)));
    }
    var author := match tt case OnQuestion => db.questions[id].author case OnAnswer => db.answers[id].author;
    var after := InteractionRequest(req.user, ActionOf(vt), id, tt, author);
    var existing := FindVote(db.votes, KeyOfRequest(req));
    match existing {
    case Some(i) =>
      if db.votes[i].voteType == vt {
        db.votes := RemoveAt(db.votes, i);
        var ignored := UpdateVoteCount(db, id, tt, vt, -1);
      } else {
        var was := db.votes[i].voteType;
        db.votes := db.votes[i := db.votes[i].(voteType := vt)];
        var ignored := UpdateVoteCount(db, id, tt, was, -1);
        ignored := UpdateVoteCount(db, id, tt, vt, 1);
      }
    case None =>
      db.votes := db.votes + [Vote(req.user, id, tt, vt)];
      var ignored := UpdateVoteCount(db, id, tt, vt, 1);
    }
    db.pending := db.pending + [after];
    result := Ok(());
  }
}
