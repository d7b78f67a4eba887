/**
 * Answers: the paginated, sorted listing of a question's answers
 * (`getAllAnswers`) and the two actions that change the answer collection
 * (`createAnswer`, `deleteAnswer`) together with the question's `answers`
 * counter and the votes on the answer.
 *
 * `AnswerCreated` and `AnswerDeleted` are the intended behaviour and keep the
 * store consistent; `AnswerCreatedAsWritten` and `AnswerDeletedAsWritten` are
 * what the code does, where the counter update names a field the schema does
 * not have and the vote clean-up filters on fields votes do not have.
 */
module AnswerAction {
  import opened Model
  import opened Database
  import Validation
  import VoteAction

  // ---------------------------------------------------------------------
  // Sorting

  /**
   * Whether `a` may come before `b` in the order the filter selects: "oldest"
   * is by creation time ascending, "popular" by upvotes descending and then
   * creation time descending, anything else (including "latest" and no filter)
   * by creation time descending.
   */
  predicate Before(filter: Option<string>, a: Answer, b: Answer) {
    if filter == Some("oldest") then a.createdAt <= b.createdAt
    else if filter == Some("popular") then
      a.upvotes > b.upvotes || (a.upvotes == b.upvotes && a.createdAt >= b.createdAt)
    else a.createdAt >= b.createdAt
  }

  lemma BeforeTotal(filter: Option<string>, a: Answer, b: Answer)
    ensures Before(filter, a, b) || Before(filter, b, a)
  {
  }

  lemma BeforeTransitive(filter: Option<string>, a: Answer, b: Answer, c: Answer)
    requires Before(filter, a, b) && Before(filter, b, c)
    ensures Before(filter, a, c)
  {
  }

  predicate SortedBy(filter: Option<string>, s: seq<Answer>) {
    forall i, j :: 0 <= i < j < |s| ==> Before(filter, s[i], s[j])
  }

  function Insert(filter: Option<string>, x: Answer, s: seq<Answer>): (r: seq<Answer>)
    requires SortedBy(filter, s)
    ensures SortedBy(filter, r)
    ensures multiset(r) == multiset(s) + multiset{x}
  {
    if s == [] || Before(filter, x, s[0]) then
      HeadBeforeAll(filter, x, s);
      [x] + s
    else
      BeforeTotal(filter, x, s[0]);
      var rest := Insert(filter, x, s[1..]);
      assert multiset(s) == multiset{s[0]} + multiset(s[1..]) by { assert s == [s[0]] + s[1..]; }
      FirstBeforeRest(filter, x, s, rest);
      [s[0]] + rest
  }

  /** An answer that goes before the first of a sorted list goes before all of it. */
  lemma HeadBeforeAll(filter: Option<string>, x: Answer, s: seq<Answer>)
    requires SortedBy(filter, s) && (s == [] || Before(filter, x, s[0]))
    ensures forall j :: 0 <= j < |s| ==> Before(filter, x, s[j])
  {
    forall j | 0 <= j < |s| ensures Before(filter, x, s[j]) {
      if j > 0 { BeforeTransitive(filter, x, s[0], s[j]); }
    }
  }

  /** The head of a sorted list goes before every element of its tail with `x` inserted, if it goes before `x`. */
  lemma FirstBeforeRest(filter: Option<string>, x: Answer, s: seq<Answer>, rest: seq<Answer>)
    requires SortedBy(filter, s) && s != [] && Before(filter, s[0], x)
    requires multiset(rest) == multiset(s[1..]) + multiset{x}
    ensures forall j :: 0 <= j < |rest| ==> Before(filter, s[0], rest[j])
  {
    forall j | 0 <= j < |rest| ensures Before(filter, s[0], rest[j]) {
      assert rest[j] in multiset(rest);
      if rest[j] != x {
        assert rest[j] in multiset(s[1..]);
        var k :| 0 <= k < |s[1..]| && s[1..][k] == rest[j];
        assert s[k + 1] == rest[j];
      }
    }
  }

  /** `.sort(sortCriteria)`: the answers in the filter's order (equal keys keep their stored order). */
  function Sorted(filter: Option<string>, s: seq<Answer>): (r: seq<Answer>)
    ensures SortedBy(filter, r)
    ensures multiset(r) == multiset(s)
  {
    if s == [] then []
    else
      assert s == [s[0]] + s[1..];
      Insert(filter, s[0], Sorted(filter, s[1..]))
  }

  // ---------------------------------------------------------------------
  // Listing

  /** `Answer.find({ question: questionId })`: the answers of one question, in stored order. */
  function OfQuestion(all: seq<Answer>, q: Id): (r: seq<Answer>)
    ensures forall i :: 0 <= i < |r| ==> r[i].question == q
    ensures forall a :: multiset(r)[a] == if a.question == q then multiset(all)[a] else 0
  {
    if all == [] then []
    else
      assert all == [all[0]] + all[1..];
      (if all[0].question == q then [all[0]] else []) + OfQuestion(all[1..], q)
  }

  /** `.skip(skip).limit(limit)` */
  function Window(s: seq<Answer>, skip: nat, limit: nat): (r: seq<Answer>)
    ensures |r| == if skip >= |s| then 0 else if skip + limit <= |s| then limit else |s| - skip
    ensures forall i :: 0 <= i < |r| ==> r[i] == s[skip + i]
  {
    if skip >= |s| then [] else if skip + limit <= |s| then s[skip..skip + limit] else s[skip..]
  }

  /** `(page - 1) * pageSize`: how many answers the earlier pages hold. */
  function Skip(page: int, pageSize: int): (r: nat)
    requires page >= 1 && pageSize >= 1
    ensures r + pageSize == page * pageSize
  {
    MulNonNegative(page - 1, pageSize);
    (page - 1) * pageSize
  }

  lemma MulNonNegative(a: int, b: int)
    requires a >= 0 && b >= 0
    ensures a * b >= 0
  {
  }

  datatype AnswersPage = AnswersPage(answers: seq<Answer>, isNext: bool, totalAnswers: nat)

  /**
   * `getAllAnswers`: the page `page` (pages of `pageSize`) of the question's
   * answers in the filter's order, whether another page follows, and how many
   * answers the question has. `all` is the answer collection.
   */
  function GetAllAnswers(all: seq<Answer>, questionId: Id, page: Option<int>, pageSize: Option<int>,
                         filter: Option<string>): (r: Result<AnswersPage>)
    ensures r.Err? <==> Validation.GetAnswersIssues(questionId, page, pageSize) != []
    ensures r.Ok? ==>
      var p, n := Validation.WithDefault(page, 1), Validation.WithDefault(pageSize, 10);
      var list := Sorted(filter, OfQuestion(all, questionId));
      && p >= 1 && n >= 1
      && r.value.totalAnswers == |OfQuestion(all, questionId)|
      && r.value.answers == Window(list, Skip(p, n), n)
      && |r.value.answers| <= n
      && (forall i :: 0 <= i < |r.value.answers| ==> r.value.answers[i].question == questionId)
      && SortedBy(filter, r.value.answers)
      && (r.value.isNext <==> p * n < r.value.totalAnswers)
  {
    var issues := Validation.GetAnswersIssues(questionId, page, pageSize);
    if issues != [] then Err(ValidationError(VoteAction.FirstIssuePath(issues)))
    else
      var p, n := Validation.WithDefault(page, 1), Validation.WithDefault(pageSize, 10);
      var skip := Skip(p, n);
      var matching := OfQuestion(all, questionId);
      var list := Sorted(filter, matching);
      var answers := Window(list, skip, n);
      ListFacts(filter, matching, questionId);
      WindowFacts(filter, list, skip, n, questionId);
      Ok(AnswersPage(answers, skip + |answers| < |matching|, |matching|))
  }

  /** The sorted list has the question's answers, as many as there are. */
  lemma ListFacts(filter: Option<string>, matching: seq<Answer>, q: Id)
    requires forall i :: 0 <= i < |matching| ==> matching[i].question == q
    ensures |Sorted(filter, matching)| == |matching|
    ensures forall i :: 0 <= i < |Sorted(filter, matching)| ==> Sorted(filter, matching)[i].question == q
  {
    var list := Sorted(filter, matching);
    assert |multiset(list)| == |multiset(matching)|;
    forall i | 0 <= i < |list| ensures list[i].question == q {
      assert list[i] in multiset(matching);
    }
  }

  /** A window of a sorted list of one question's answers is one too. */
  lemma WindowFacts(filter: Option<string>, list: seq<Answer>, skip: nat, n: nat, q: Id)
    requires SortedBy(filter, list)
    requires forall i :: 0 <= i < |list| ==> list[i].question == q
    ensures SortedBy(filter, Window(list, skip, n))
    ensures forall i :: 0 <= i < |Window(list, skip, n)| ==> Window(list, skip, n)[i].question == q
  {
    var w := Window(list, skip, n);
    forall i, j | 0 <= i < j < |w| ensures Before(filter, w[i], w[j]) {
      assert w[i] == list[skip + i] && w[j] == list[skip + j];
    }
  }

  /** The first `k` pages of size `n`, one after the other. */
  function Pages(s: seq<Answer>, n: nat, k: nat): seq<Answer> {
    if k == 0 then [] else Pages(s, n, k - 1) + Window(s, (k - 1) * n, n)
  }

  /** Walking the pages in turn never skips or repeats an answer: the first `k` pages are a prefix. */
  lemma {:induction false} PagesArePrefix(s: seq<Answer>, n: nat, k: nat)
    ensures Pages(s, n, k) == if k * n <= |s| then s[..k * n] else s
  {
    if k > 0 {
      PagesArePrefix(s, n, k - 1);
      var a, b := (k - 1) * n, k * n;
      PageStep(k, n);
      var w := Window(s, a, n);
      if a >= |s| {
      } else if b <= |s| {
        assert s[..a] + w == s[..b];
      } else {
        assert s[..a] + w == s;
      }
    }
  }

  lemma PageStep(k: nat, n: nat)
    requires k > 0
    ensures (k - 1) * n + n == k * n && 0 <= (k - 1) * n
  {
  }

  /** The stored answer documents, in the order `ids` lists their ids. */
  function Documents(ids: seq<Id>, answers: map<Id, Answer>): (r: seq<Answer>)
    requires forall i :: 0 <= i < |ids| ==> ids[i] in answers
    ensures |r| == |ids| && forall i :: 0 <= i < |ids| ==> r[i] == answers[ids[i]]
  {
    if ids == [] then [] else [answers[ids[0]]] + Documents(ids[1..], answers)
  }

  /** `ids` lists every stored answer exactly once: the order a collection scan returns them in. */
  ghost predicate Enumerates(ids: seq<Id>, answers: map<Id, Answer>) {
    && (forall i, j :: 0 <= i < j < |ids| ==> ids[i] != ids[j])
    && (forall a :: a in answers <==> a in ids)
  }

  /** The listed ids whose stored answer is on question `q`. */
  ghost function ListedOn(ids: seq<Id>, answers: map<Id, Answer>, q: Id): set<Id> {
    set a | a in ids && a in answers && answers[a].question == q
  }

  /** Filtering listed documents by question counts the listed ids whose answer is on that question. */
  lemma {:induction false} CountOfDocuments(ids: seq<Id>, answers: map<Id, Answer>, q: Id)
    requires forall i, j :: 0 <= i < j < |ids| ==> ids[i] != ids[j]
    requires forall i :: 0 <= i < |ids| ==> ids[i] in answers
    ensures |OfQuestion(Documents(ids, answers), q)| == |ListedOn(ids, answers, q)|
    decreases |ids|
  {
    if ids != [] {
      CountOfDocuments(ids[1..], answers, q);
      OfQuestionStep(Documents(ids, answers), q);
      assert Documents(ids, answers)[1..] == Documents(ids[1..], answers);
      ListedOnStep(ids, answers, q);
    }
  }

  lemma OfQuestionStep(all: seq<Answer>, q: Id)
    requires all != []
    ensures |OfQuestion(all, q)| == (if all[0].question == q then 1 else 0) + |OfQuestion(all[1..], q)|
  {
  }

  lemma ListedOnStep(ids: seq<Id>, answers: map<Id, Answer>, q: Id)
    requires ids != [] && ids[0] in answers
    requires forall j :: 0 < j < |ids| ==> ids[j] != ids[0]
    ensures |ListedOn(ids, answers, q)| == (if answers[ids[0]].question == q then 1 else 0) + |ListedOn(ids[1..], answers, q)|
  {
    var x, t := ids[0], ListedOn(ids[1..], answers, q);
    assert x !in ids[1..];
    assert forall a :: a in ids <==> a == x || a in ids[1..] by {
      assert ids == [x] + ids[1..];
    }
    if answers[x].question == q {
      assert ListedOn(ids, answers, q) == t + {x};
    } else {
      assert ListedOn(ids, answers, q) == t;
    }
  }

  /**
   * Listed over the stored answers, the page's `totalAnswers` is the
   * question's `answers` counter whenever the store counts answers correctly.
   */
  lemma ListingCountsStoredAnswers(db: Db, ids: seq<Id>, q: Id, page: Option<int>, pageSize: Option<int>,
                                   filter: Option<string>)
    requires AnswersCounted(db) && q in db.questions && Enumerates(ids, db.answers)
    requires Validation.GetAnswersIssues(q, page, pageSize) == []
    ensures var r := GetAllAnswers(Documents(ids, db.answers), q, page, pageSize, filter);
      r.Ok? && r.value.totalAnswers == db.questions[q].answers
  {
    assert forall i :: 0 <= i < |ids| ==> ids[i] in db.answers;
    CountOfDocuments(ids, db.answers, q);
    ListedOnIsAnswerIds(ids, db.answers, q);
  }

  lemma ListedOnIsAnswerIds(ids: seq<Id>, answers: map<Id, Answer>, q: Id)
    requires forall a :: a in answers <==> a in ids
    ensures ListedOn(ids, answers, q) == AnswerIdsOf(answers, q)
  {
  }

  // ---------------------------------------------------------------------
  // Counting answers

  lemma AnswerIdsAdd(answers: map<Id, Answer>, id: Id, a: Answer, q: Id)
    requires id !in answers
    ensures AnswerIdsOf(answers[id := a], q)
            == if a.question == q then AnswerIdsOf(answers, q) + {id} else AnswerIdsOf(answers, q)
  {
  }

  lemma AnswerIdsRemove(answers: map<Id, Answer>, id: Id, q: Id)
    requires id in answers
    ensures AnswerIdsOf(answers - {id}, q)
            == if answers[id].question == q then AnswerIdsOf(answers, q) - {id} else AnswerIdsOf(answers, q)
  {
  }

  lemma {:induction false} CountVotesNone(votes: seq<Vote>, id: Id, tt: TargetType, vt: VoteType)
    requires forall i :: 0 <= i < |votes| ==> !(votes[i].actionId == id && votes[i].actionType == tt)
    ensures CountVotes(votes, id, tt, vt) == 0
    decreases |votes|
  {
    if votes != [] {
      CountVotesNone(votes[..|votes| - 1], id, tt, vt);
    }
  }

  // ---------------------------------------------------------------------
  // createAnswer

  /** The interaction a new answer schedules: the author posts, and is credited, themselves. */
  function PostInteraction(user: Id, answerId: Id): InteractionRequest {
    InteractionRequest(user, Post, answerId, OnAnswer, user)
  }

  /**
   * `createAnswer` as intended, by `user` at time `now`: a new answer under the
   * fresh id `newId`, the question's `answers` counter up by one and a 'post'
   * interaction queued. A missing question aborts with nothing written.
   */
  function AnswerCreated(db: Db, user: Id, content: string, questionId: Id, newId: Id, now: int): (r: Step<Answer>)
    requires newId !in db.answers
    ensures r.result.Ok? <==> |content| >= 50 && questionId != [] && questionId in db.questions
    ensures r.result.Err? ==> r.db == db
    ensures |content| >= 50 && questionId != [] && questionId !in db.questions ==> r.result == Err(NotFound("Question"))
    ensures r.result.Ok? ==>
      && r.result.value == NewAnswer(user, questionId, content, now)
      && r.db.answers == db.answers[newId := r.result.value]
      && r.db.questions == db.questions[questionId := db.questions[questionId].(answers := db.questions[questionId].answers + 1)]
      && r.db.votes == db.votes && r.db.users == db.users && r.db.accounts == db.accounts
      && r.db.interactions == db.interactions
      && r.db.pending == db.pending + [PostInteraction(user, newId)]
  {
    var issues := Validation.CreateAnswerIssues(content, questionId);
    if issues != [] then Step(db, Err(ValidationError(VoteAction.FirstIssuePath(issues))))
    else if questionId !in db.questions then Step(db, Err(NotFound("Question")))
    else
      var answer := NewAnswer(user, questionId, content, now);
      var question := db.questions[questionId];
      var db1 := db.(answers := db.answers[newId := answer],
                     questions := db.questions[questionId := question.(answers := question.answers + 1)]);
      Step(db1.(pending := db1.pending + [PostInteraction(user, newId)]), Ok(answer))
  }

  /**
   * `createAnswer` as written: `question.answer += 1` sets a path the schema
   * does not declare, which strict mode drops on save, so the counter stays.
   */
  function AnswerCreatedAsWritten(db: Db, user: Id, content: string, questionId: Id, newId: Id, now: int): (r: Step<Answer>)
    requires newId !in db.answers
    ensures r.result == AnswerCreated(db, user, content, questionId, newId, now).result
    ensures r.db == AnswerCreated(db, user, content, questionId, newId, now).db.(questions := db.questions)
  {
    var issues := Validation.CreateAnswerIssues(content, questionId);
    if issues != [] then Step(db, Err(ValidationError(VoteAction.FirstIssuePath(issues))))
    else if questionId !in db.questions then Step(db, Err(NotFound("Question")))
    else
      var answer := NewAnswer(user, questionId, content, now);
      Step(db.(answers := db.answers[newId := answer], pending := db.pending + [PostInteraction(user, newId)]),
           Ok(answer))
  }

  /** As written, every successful answer leaves its question's counter one short. */
  lemma CreateAsWrittenBreaksCount(db: Db, user: Id, content: string, questionId: Id, newId: Id, now: int)
    requires newId !in db.answers && AnswersCounted(db)
    requires |content| >= 50 && questionId != [] && questionId in db.questions
    ensures var r := AnswerCreatedAsWritten(db, user, content, questionId, newId, now).db;
      && r.questions[questionId].answers == db.questions[questionId].answers
      && |AnswerIdsOf(r.answers, questionId)| == db.questions[questionId].answers + 1
      && !AnswersCounted(r)
  {
    AnswerIdsAdd(db.answers, newId, NewAnswer(user, questionId, content, now), questionId);
  }

  lemma AnswerCreatedKeepsConsistent(db: Db, user: Id, content: string, questionId: Id, newId: Id, now: int)
    requires newId !in db.answers && Consistent(db)
    ensures Consistent(AnswerCreated(db, user, content, questionId, newId, now).db)
  {
    var s := AnswerCreated(db, user, content, questionId, newId, now);
    if s.result.Ok? {
      var r := s.db;
      var a := s.result.value;
      assert Tallied(r) by {
        forall tt, id, vt | TargetExists(r, tt, id)
          ensures Counter(r, tt, id, vt) == CountVotes(r.votes, id, tt, vt)
        {
          if tt == OnAnswer && id == newId {
            forall i | 0 <= i < |db.votes| ensures !(db.votes[i].actionId == newId && db.votes[i].actionType == OnAnswer) {
              assert TargetExists(db, db.votes[i].actionType, db.votes[i].actionId);
            }
            CountVotesNone(db.votes, newId, OnAnswer, vt);
          } else {
            assert TargetExists(db, tt, id);
          }
        }
      }
      assert AnswersCounted(r) by {
        forall q | q in r.questions ensures r.questions[q].answers == |AnswerIdsOf(r.answers, q)| {
          AnswerIdsAdd(db.answers, newId, a, q);
        }
      }
    }
  }

  // ---------------------------------------------------------------------
  // deleteAnswer

  predicate OnAnswerId(v: Vote, answerId: Id) {
    v.actionType == OnAnswer && v.actionId == answerId
  }

  /** `Vote.deleteMany({ actionId: answerId, actionType: 'answer' })`: the other votes, in order. */
  function VotesWithout(votes: seq<Vote>, answerId: Id): (r: seq<Vote>)
    ensures |r| <= |votes|
    ensures forall i :: 0 <= i < |r| ==> !OnAnswerId(r[i], answerId) && r[i] in votes
    ensures forall v :: v in votes && !OnAnswerId(v, answerId) ==> v in r
  {
    if votes == [] then []
    else
      var n := |votes| - 1;
      var rest := VotesWithout(votes[..n], answerId);
      assert forall v :: v in votes ==> v in votes[..n] || v == votes[n];
      if OnAnswerId(votes[n], answerId) then rest else rest + [votes[n]]
  }

  lemma {:induction false} VotesWithoutCount(votes: seq<Vote>, answerId: Id, id: Id, tt: TargetType, vt: VoteType)
    ensures CountVotes(VotesWithout(votes, answerId), id, tt, vt)
            == if tt == OnAnswer && id == answerId then 0 else CountVotes(votes, id, tt, vt)
    decreases |votes|
  {
    if votes != [] {
      var n := |votes| - 1;
      var last := votes[n];
      var rest := VotesWithout(votes[..n], answerId);
      VotesWithoutCount(votes[..n], answerId, id, tt, vt);
      assert CountVotes(votes, id, tt, vt)
             == CountVotes(votes[..n], id, tt, vt) + (if CountsFor(last, id, tt, vt) then 1 else 0);
      if OnAnswerId(last, answerId) {
        assert VotesWithout(votes, answerId) == rest;
      } else {
        assert VotesWithout(votes, answerId) == rest + [last];
        VoteAction.CountAppend(rest, last, id, tt, vt);
      }
    }
  }

  lemma {:induction false} VotesWithoutUnique(votes: seq<Vote>, answerId: Id)
    requires UniqueKeys(votes)
    ensures UniqueKeys(VotesWithout(votes, answerId))
    decreases |votes|
  {
    if votes != [] {
      var n := |votes| - 1;
      var rest := VotesWithout(votes[..n], answerId);
      assert UniqueKeys(votes[..n]);
      VotesWithoutUnique(votes[..n], answerId);
      if !OnAnswerId(votes[n], answerId) {
        var r := rest + [votes[n]];
        forall i, j | 0 <= i < j < |r| ensures KeyOf(r[i]) != KeyOf(r[j]) {
          if j == |rest| {
            assert r[i] in votes[..n];
            var k :| 0 <= k < n && votes[k] == r[i];
          }
        }
      }
    }
  }

  /** The interaction a deletion schedules, credited to the caller. */
  function DeleteInteraction(user: Id, answerId: Id): InteractionRequest {
    InteractionRequest(user, Delete, answerId, OnAnswer, user)
  }

  /**
   * `deleteAnswer` as intended, by `user`: only the author may delete; the
   * question's `answers` counter goes down by one (a missing question is left
   * alone), the votes on the answer and the answer itself are removed and a
   * 'delete' interaction is queued.
   */
  function AnswerDeleted(db: Db, user: Id, answerId: Id): (r: Step<()>)
    ensures r.result.Ok? <==> answerId != [] && answerId in db.answers && db.answers[answerId].author == user
    ensures r.result.Err? ==> r.db == db
    ensures answerId != [] && answerId !in db.answers ==> r.result == Err(NotFound("Answer"))
    ensures answerId != [] && answerId in db.answers && db.answers[answerId].author != user ==> r.result == Err(Unauthorized)
    ensures r.result.Ok? ==>
      var q := db.answers[answerId].question;
      && r.db.answers == db.answers - {answerId}
      && r.db.questions == (if q in db.questions then db.questions[q := db.questions[q].(answers := db.questions[q].answers - 1)]
                            else db.questions)
      && r.db.votes == VotesWithout(db.votes, answerId)
      && r.db.users == db.users && r.db.accounts == db.accounts && r.db.interactions == db.interactions
      && r.db.pending == db.pending + [DeleteInteraction(user, answerId)]
  {
    var issues := Validation.DeleteAnswerIssues(answerId);
    if issues != [] then Step(db, Err(ValidationError(VoteAction.FirstIssuePath(issues))))
    else if answerId !in db.answers then Step(db, Err(NotFound("Answer")))
    else if db.answers[answerId].author != user then Step(db, Err(Unauthorized))
    else
      var q := db.answers[answerId].question;
      var questions := if q in db.questions then db.questions[q := db.questions[q].(answers := db.questions[q].answers - 1)]
                       else db.questions;
      Step(db.(questions := questions, votes := VotesWithout(db.votes, answerId), answers := db.answers - {answerId},
               pending := db.pending + [DeleteInteraction(user, answerId)]),
           Ok(()))
  }

  /**
   * `deleteAnswer` as written: the `$inc` names the undeclared path `answer`
   * and is dropped, and the vote filter names `targetId`/`targetType`, which no
   * vote has, so it matches nothing. Only the answer goes.
   */
  function AnswerDeletedAsWritten(db: Db, user: Id, answerId: Id): (r: Step<()>)
    ensures r.result == AnswerDeleted(db, user, answerId).result
    ensures r.db == AnswerDeleted(db, user, answerId).db.(questions := db.questions, votes := db.votes)
  {
    var issues := Validation.DeleteAnswerIssues(answerId);
    if issues != [] then Step(db, Err(ValidationError(VoteAction.FirstIssuePath(issues))))
    else if answerId !in db.answers then Step(db, Err(NotFound("Answer")))
    else if db.answers[answerId].author != user then Step(db, Err(Unauthorized))
    else
      Step(db.(answers := db.answers - {answerId}, pending := db.pending + [DeleteInteraction(user, answerId)]), Ok(()))
  }

  /** As written, deleting an answer leaves its question's counter one too high. */
  lemma DeleteAsWrittenBreaksCount(db: Db, user: Id, answerId: Id)
    requires AnswersCounted(db)
    requires answerId != [] && answerId in db.answers && db.answers[answerId].author == user
    requires db.answers[answerId].question in db.questions
    ensures var r, q := AnswerDeletedAsWritten(db, user, answerId).db, db.answers[answerId].question;
      && r.questions[q].answers == |AnswerIdsOf(r.answers, q)| + 1
      && !AnswersCounted(r)
  {
    var q := db.answers[answerId].question;
    AnswerIdsRemove(db.answers, answerId, q);
    assert answerId in AnswerIdsOf(db.answers, q);
  }

  /** As written, a vote on the deleted answer stays behind, pointing at nothing. */
  lemma DeleteAsWrittenLeavesVotes(db: Db, user: Id, answerId: Id, i: nat)
    requires answerId != [] && answerId in db.answers && db.answers[answerId].author == user
    requires i < |db.votes| && OnAnswerId(db.votes[i], answerId)
    ensures var r := AnswerDeletedAsWritten(db, user, answerId).db;
      && r.votes[i] == db.votes[i]
      && !VotesOnLiveTargets(r)
  {
    var r := AnswerDeletedAsWritten(db, user, answerId).db;
    assert !TargetExists(r, r.votes[i].actionType, r.votes[i].actionId);
  }

  lemma AnswerDeletedKeepsConsistent(db: Db, user: Id, answerId: Id)
    requires Consistent(db)
    ensures Consistent(AnswerDeleted(db, user, answerId).db)
  {
    var s := AnswerDeleted(db, user, answerId);
    if s.result.Ok? {
      var r := s.db;
      var q0 := db.answers[answerId].question;
      VotesWithoutUnique(db.votes, answerId);
      assert VotesOnLiveTargets(r) by {
        forall i | 0 <= i < |r.votes| ensures TargetExists(r, r.votes[i].actionType, r.votes[i].actionId) {
          var k :| 0 <= k < |db.votes| && db.votes[k] == r.votes[i];
          assert TargetExists(db, db.votes[k].actionType, db.votes[k].actionId);
        }
      }
      assert Tallied(r) by {
        forall tt, id, vt | TargetExists(r, tt, id)
          ensures Counter(r, tt, id, vt) == CountVotes(r.votes, id, tt, vt)
        {
          assert TargetExists(db, tt, id);
          VotesWithoutCount(db.votes, answerId, id, tt, vt);
        }
      }
      assert AnswersCounted(r) by {
        forall q | q in r.questions ensures r.questions[q].answers == |AnswerIdsOf(r.answers, q)| {
          AnswerIdsRemove(db.answers, answerId, q);
          if q == q0 {
            assert answerId in AnswerIdsOf(db.answers, q);
          }
        }
      }
    }
  }

  // ---------------------------------------------------------------------
  // The actions on a store

  /** `createAnswer` inside one transaction; the only failure is found before any write. */
  method CreateAnswer(db: Store, user: Id, content: string, questionId: Id, newId: Id, now: int)
    returns (result: Result<Answer>)
    requires newId !in db.answers
    modifies db
    ensures Step(db.Snapshot(), result) == AnswerCreated(old(db.Snapshot()), user, content, questionId, newId, now)
  {
    var issues := Validation.CreateAnswerIssues(content, questionId);
    if issues != [] {
      result := Err(ValidationError(VoteAction.FirstIssuePath(issues)));
      return;
    }
    if questionId !in db.questions {
      result := Err(NotFound("Question"));
      return;
    }
    var question := db.questions[questionId];
    var answer := NewAnswer(user, questionId, content, now);
    db.answers := db.answers[newId := answer];
    question := question.(answers := question.answers + 1);
    db.questions := db.questions[questionId := question];
    db.pending := db.pending + [PostInteraction(user, newId)];
    result := Ok(answer);
  }

  /** `deleteAnswer`: the checks, then the counter, the votes and the answer, one write each. */
  method DeleteAnswer(db: Store, user: Id, answerId: Id) returns (result: Result<()>)
    modifies db
    ensures Step(db.Snapshot(), result) == AnswerDeleted(old(db.Snapshot()), user, answerId)
  {
    var issues := Validation.DeleteAnswerIssues(answerId);
    if issues != [] {
      result := Err(ValidationError(VoteAction.FirstIssuePath(issues)));
      return;
    }
    if answerId !in db.answers {
      result := Err(NotFound("Answer"));
      return;
    }
    var answer := db.answers[answerId];
    if answer.author != user {
      result := Err(Unauthorized);
      return;
    }
    if answer.question in db.questions {
      var question := db.questions[answer.question];
      db.questions := db.questions[answer.question := question.(answers := question.answers - 1)];
    }
    db.votes := VotesWithout(db.votes, answerId);
    db.answers := db.answers - {answerId};
    db.pending := db.pending + [DeleteInteraction(user, answerId)];
    result := Ok(());
  }
}
