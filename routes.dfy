/** The application's route strings. */
module Routes {

  const Home := "/"

  const ProfilePrefix := "/profile/"
  const QuestionPrefix := "/questions/"
  const TagPrefix := "/tags/"

  function Profile(id: string): string { ProfilePrefix + id }

  function QuestionPage(id: string): string { QuestionPrefix + id }

  function TagPage(id: string): string { TagPrefix + id }

  /** The three parameterised routes never coincide, whatever the ids. */
  lemma {:induction false} RoutesDistinct(a: string, b: string)
    ensures Profile(a) != QuestionPage(b)
    ensures Profile(a) != TagPage(b)
    ensures QuestionPage(a) != TagPage(b)
    ensures Profile(a) != Home && QuestionPage(a) != Home && TagPage(a) != Home
  {
    assert Profile(a)[1] == 'p' && QuestionPage(b)[1] == 'q' && TagPage(b)[1] == 't';
    assert QuestionPage(a)[1] == 'q';
  }
}
