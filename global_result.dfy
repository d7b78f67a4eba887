/**
 * The global search result list: where each hit links to, and the effect
 * that runs a search when the `global` parameter is set and fills the list.
 * The search action itself is a parameter: its response is passed in.
 */
module GlobalResult {
  import opened Model
  import Routes

  /** `renderLink(type, id)`: questions and answers open the question page, users the profile, tags the tag page. */
  function RenderLink(kind: string, id: string): (r: string)
    ensures kind == "question" || kind == "answer" ==> r == Routes.QuestionPage(id)
    ensures kind == "user" ==> r == Routes.Profile(id)
    ensures kind == "tag" ==> r == Routes.TagPage(id)
    ensures kind !in {"question", "answer", "user", "tag"} ==> r == Routes.Home
  {
    match kind
    case "question" => "/questions/" + id
    case "answer" => "/questions/" + id
    case "user" => "/profile/" + id
    case "tag" => "/tags/" + id
    case _ => "/"
  }

  /** The page a link of a known kind opens, and the id it carries, are both recoverable from the link. */
  lemma {:induction false} LinkDeterminesTarget(k1: string, id1: string, k2: string, id2: string)
    requires k1 in {"question", "answer", "user", "tag"} && k2 in {"question", "answer", "user", "tag"}
    requires RenderLink(k1, id1) == RenderLink(k2, id2)
    ensures id1 == id2
    ensures k1 == k2 || (k1 in {"question", "answer"} && k2 in {"question", "answer"})
  {
    Routes.RoutesDistinct(id1, id2);
    Routes.RoutesDistinct(id2, id1);
    var l := RenderLink(k1, id1);
    if k1 in {"user"} {
      assert id1 == l[|Routes.ProfilePrefix|..] && id2 == l[|Routes.ProfilePrefix|..];
    } else if k1 in {"tag"} {
      assert id1 == l[|Routes.TagPrefix|..] && id2 == l[|Routes.TagPrefix|..];
    } else {
      assert id1 == l[|Routes.QuestionPrefix|..] && id2 == l[|Routes.QuestionPrefix|..];
    }
  }

  /** An answer hit carries the id used for the question page, so it links exactly like a question. */
  lemma AnswerLinksLikeQuestion(id: string)
    ensures RenderLink("answer", id) == RenderLink("question", id)
  {
  }

  /** `if (global) fetchResult()`: a search runs only for a present, non-empty `global` parameter. */
  predicate ShouldFetch(global: Option<string>) {
    global.Some? && global.value != ""
  }

  /** What `globalSearch` gave back: a response whose `data` may be missing, or a thrown error. */
  datatype Response<H> = Returned(data: Option<seq<H>>) | Threw(message: string)

  /**
   * The list state of the component: `result` (`None` is the `undefined` a
   * response without data leaves), `isLoading`, and the toasts shown.
   */
  class SearchList<H> {
    var result: Option<seq<H>>
    var isLoading: bool
    var toasts: seq<string>

    /** `useState([])` and `useState(true)`. */
    constructor ()
      ensures result == Some([]) && isLoading && toasts == []
    {
      result, isLoading, toasts := Some([]), true, [];
    }

    /**
     * One run of the effect. Without a search nothing changes; with one the
     * list ends as the response's data, or empty after a thrown error with
     * its message toasted, and loading is over.
     */
    method RunEffect(global: Option<string>, response: Response<H>)
      modifies this
      ensures !ShouldFetch(global) ==> result == old(result) && isLoading == old(isLoading) && toasts == old(toasts)
      ensures ShouldFetch(global) ==> !isLoading
      ensures ShouldFetch(global) && response.Returned? ==> result == response.data && toasts == old(toasts)
      ensures ShouldFetch(global) && response.Threw? ==> result == Some([]) && toasts == old(toasts) + [response.message]
    {
      if global.Some? && global.value != "" {
        result := Some([]);
        isLoading := true;
        match response {
          case Returned(data) =>
            result := data;
          case Threw(message) =>
            toasts := toasts + [message];
            result := Some([]);
        }
        isLoading := false;
      }
    }
  }

  /**
   * The effect runs again whenever `global` or `type` changes: two runs with
   * the same response leave the list as one run does, with one more toast
   * for a repeated error.
   */
  method RerunSameResponse<H>(list: SearchList<H>, global: Option<string>, response: Response<H>)
    requires ShouldFetch(global)
    modifies list
    ensures !list.isLoading
    ensures response.Returned? ==> list.result == response.data && list.toasts == old(list.toasts)
    ensures response.Threw? ==> list.result == Some([]) && list.toasts == old(list.toasts) + [response.message, response.message]
  {
    list.RunEffect(global, response);
    list.RunEffect(global, response);
  }
}
