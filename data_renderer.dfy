/**
 * The three-way choice every list page makes: the error state when the
 * action failed, the empty state when it returned no items, and the
 * caller's render of the items otherwise.
 *
 * `JSON.stringify` and the component the caller renders are parameters; the
 * default texts are the record `Defaults`, whose values live in a constants
 * file that is not part of this model.
 */
module DataRenderer {
  import opened Model
  import Validation
  import AnswerAction

  datatype ButtonProps = ButtonProps(text: string, href: string)

  /** The title, message and optional button of a state screen. */
  datatype StateText = StateText(title: string, message: string, button: Option<ButtonProps>)

  /** `error?: { message, details? }`; `details` maps each field to its messages. */
  datatype ErrorInfo = ErrorInfo(message: string, details: Option<map<string, seq<string>>>)

  /** `DEFAULT_ERROR` and `DEFAULT_EMPTY`. */
  datatype Defaults = Defaults(error: StateText, empty: StateText)

  /** What is shown: one of the two state screens, or the caller's node. */
  datatype View<N> = ErrorState(text: StateText) | EmptyState(text: StateText) | Content(node: N)

  function Render<T, N>(success: bool, error: Option<ErrorInfo>, data: Option<seq<T>>, empty: Option<StateText>,
                        render: seq<T> -> N, defaults: Defaults, stringify: map<string, seq<string>> -> string): (r: View<N>)
    ensures r.ErrorState? <==> !success
    ensures r.ErrorState? ==>
      && r.text.title == (if error.Some? && error.value.message != "" then error.value.message else defaults.error.title)
      && r.text.message == (if error.Some? && error.value.details.Some? then stringify(error.value.details.value)
                            else defaults.error.message)
      && r.text.button == defaults.error.button
    ensures r.EmptyState? <==> success && (data.None? || data.value == [])
    ensures r.EmptyState? ==> r.text == (if empty.Some? then empty.value else defaults.empty)
    ensures r.Content? <==> success && data.Some? && data.value != []
    ensures r.Content? ==> r.node == render(data.value)
  {
    if !success then
      var title := if error.Some? && error.value.message != "" then error.value.message else defaults.error.title;
      var message := if error.Some? && error.value.details.Some? then stringify(error.value.details.value)
                     else defaults.error.message;
      ErrorState(StateText(title, message, defaults.error.button))
    else if data.None? || |data.value| == 0 then
      var e := if empty.Some? then empty.value else defaults.empty;
      EmptyState(StateText(e.title, e.message, e.button))
    else Content(render(data.value))
  }

  /**
   * The answers section of a question page: it is only rendered after a
   * successful `getAllAnswers`, and then shows the answer cards exactly when
   * the requested page starts before the end of the question's answers,
   * otherwise the page's own empty texts.
   */
  lemma AnswerListShown<N>(all: seq<Answer>, q: Id, page: Option<int>, pageSize: Option<int>, filter: Option<string>,
                           error: Option<ErrorInfo>, emptyAnswers: StateText, render: seq<Answer> -> N,
                           defaults: Defaults, stringify: map<string, seq<string>> -> string)
    requires AnswerAction.GetAllAnswers(all, q, page, pageSize, filter).Ok?
    ensures
      var pg := AnswerAction.GetAllAnswers(all, q, page, pageSize, filter).value;
      var skip := AnswerAction.Skip(Validation.WithDefault(page, 1), Validation.WithDefault(pageSize, 10));
      var v := Render(true, error, Some(pg.answers), Some(emptyAnswers), render, defaults, stringify);
      && (v.Content? <==> skip < pg.totalAnswers)
      && (v.Content? ==> v.node == render(pg.answers))
      && (!v.Content? ==> v == EmptyState(emptyAnswers))
  {
    var matching := AnswerAction.OfQuestion(all, q);
    AnswerAction.ListFacts(filter, matching, q);
  }
}
