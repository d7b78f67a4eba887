/**
 * The request schemas of the forum as checks over strings and sequences.
 *
 * Each schema is a function from the input to the list of issues it raises
 * (zod runs every check of a field and reports each failure, so an input can
 * raise several); the input is accepted exactly when the list is empty. The
 * contract of each schema function says in plain terms which inputs it accepts.
 *
 * Character classes follow JavaScript regular expressions without the `u`
 * flag: `\s` is the whitespace set below, `\d` is 0-9, letters are ASCII.
 * Lengths are counted in characters of the string.
 * zod's `.url()` check is library behaviour and is a parameter (`isUrl`).
 */
module Validation {
  import opened Model

  datatype Issue = Issue(path: string, message: string)

  function Check(ok: bool, path: string, message: string): seq<Issue> {
    if ok then [] else [Issue(path, message)]
  }

  // ---------------------------------------------------------------------
  // Character classes

  /** JavaScript's `\s`: white space and line terminators. */
  predicate IsWhitespace(c: char) {
    c == '\t' || c == '\n' || c == '\U{000B}' || c == '\U{000C}' || c == '\r' || c == ' '
    || c == '\U{00A0}' || c == '\U{1680}' || ('\U{2000}' <= c <= '\U{200A}')
    || c == '\U{2028}' || c == '\U{2029}' || c == '\U{202F}' || c == '\U{205F}'
    || c == '\U{3000}' || c == '\U{FEFF}'
  }

  predicate IsUpper(c: char) { 'A' <= c <= 'Z' }
  predicate IsLower(c: char) { 'a' <= c <= 'z' }
  predicate IsDigit(c: char) { '0' <= c <= '9' }
  predicate IsLetter(c: char) { IsUpper(c) || IsLower(c) }
  predicate IsAlnum(c: char) { IsLetter(c) || IsDigit(c) }

  /** `[@$!%*?&]` */
  predicate IsSpecial(c: char) {
    c == '@' || c == '$' || c == '!' || c == '%' || c == '*' || c == '?' || c == '&'
  }

  predicate Contains(s: string, p: char -> bool) {
    exists i :: 0 <= i < |s| && p(s[i])
  }

  predicate AllOf(s: string, p: char -> bool) {
    forall i :: 0 <= i < |s| ==> p(s[i])
  }

  /** `/^[...]+$/.test(s)` for a character class `p`. */
  predicate MatchesPlus(s: string, p: char -> bool) {
    |s| >= 1 && AllOf(s, p)
  }

  // ---------------------------------------------------------------------
  // Email

  predicate EmailChar(c: char) { !IsWhitespace(c) && c != '@' }

  /**
   * `/^[^\s@]+@[^\s@]+\.[^\s@]+$/` read as a grammar: a non-empty local part,
   * '@', a non-empty run, '.', a non-empty run, where no run holds white
   * space or '@' (the runs may hold further dots).
   */
  predicate EmailRegex(s: string) {
    exists i, j :: 0 < i < j - 1 && j < |s| - 1 && s[i] == '@' && s[j] == '.'
      && MatchesPlus(s[..i], EmailChar)
      && MatchesPlus(s[i + 1..j], EmailChar)
      && MatchesPlus(s[j + 1..], EmailChar)
  }

  /**
   * The same language described field by field: no white space, exactly one
   * '@' with something before it, and a '.' after the '@' that is neither the
   * first nor the last character of the part after the '@'.
   */
  predicate EmailShape(s: string) {
    && AllOf(s, c => !IsWhitespace(c))
    && (exists k :: 0 < k < |s| && s[k] == '@'
         && (forall m :: 0 <= m < |s| && m != k ==> s[m] != '@')
         && (exists p :: k + 1 < p < |s| - 1 && s[p] == '.'))
  }

  lemma {:induction false} EmailRegexIsShape(s: string)
    ensures EmailRegex(s) <==> EmailShape(s)
  {
    if EmailRegex(s) {
      RegexGivesShape(s);
    }
    if EmailShape(s) {
      ShapeGivesRegex(s);
    }
  }

  lemma {:induction false} RegexGivesShape(s: string)
    requires EmailRegex(s)
    ensures EmailShape(s)
  {
    var i, j :| 0 < i < j - 1 && j < |s| - 1 && s[i] == '@' && s[j] == '.'
      && MatchesPlus(s[..i], EmailChar)
      && MatchesPlus(s[i + 1..j], EmailChar)
      && MatchesPlus(s[j + 1..], EmailChar);
    assert s[..i] == s[0..i] && s[j + 1..] == s[j + 1..|s|];
    SliceOfEmailChars(s, 0, i);
    SliceOfEmailChars(s, i + 1, j);
    SliceOfEmailChars(s, j + 1, |s|);
    forall m | 0 <= m < |s|
      ensures !IsWhitespace(s[m]) && (m != i ==> s[m] != '@')
    {
      if m != i && m != j {
        assert EmailChar(s[m]);
      }
    }
    assert i + 1 < j < |s| - 1 && s[j] == '.';
  }

  /** A slice holds only email characters exactly when its positions in the text do. */
  lemma SliceOfEmailChars(s: string, lo: nat, hi: nat)
    requires lo <= hi <= |s|
    ensures AllOf(s[lo..hi], EmailChar) <==> forall m :: lo <= m < hi ==> EmailChar(s[m])
  {
    if AllOf(s[lo..hi], EmailChar) {
      forall m | lo <= m < hi ensures EmailChar(s[m]) {
        assert s[lo..hi][m - lo] == s[m];
      }
    }
    if forall m :: lo <= m < hi ==> EmailChar(s[m]) {
      forall m | 0 <= m < hi - lo ensures EmailChar(s[lo..hi][m]) {
        assert s[lo..hi][m] == s[lo + m];
      }
    }
  }

  lemma {:induction false} ShapeGivesRegex(s: string)
    requires EmailShape(s)
    ensures EmailRegex(s)
  {
    var k :| 0 < k < |s| && s[k] == '@'
      && (forall m :: 0 <= m < |s| && m != k ==> s[m] != '@')
      && (exists p :: k + 1 < p < |s| - 1 && s[p] == '.');
    var p :| k + 1 < p < |s| - 1 && s[p] == '.';
    assert forall m :: 0 <= m < |s| ==> !IsWhitespace(s[m]);
    SliceOfEmailChars(s, 0, k);
    SliceOfEmailChars(s, k + 1, p);
    SliceOfEmailChars(s, p + 1, |s|);
    assert s[..k] == s[0..k] && s[p + 1..] == s[p + 1..|s|];
    assert 0 < k < p - 1 && p < |s| - 1 && s[k] == '@' && s[p] == '.';
  }

  /** `requiredEmail`: `.min(1)` then the email regex. */
  function EmailIssues(path: string, s: string): (r: seq<Issue>)
    ensures r == [] <==> EmailShape(s)
  {
    EmailRegexIsShape(s);
    Check(|s| >= 1, path, "Email is required.")
      + Check(EmailRegex(s), path, "Please provide a valid email address.")
  }

  // ---------------------------------------------------------------------
  // Sign in and sign up

  function SignInIssues(email: string, password: string): (r: seq<Issue>)
    ensures r == [] <==> EmailShape(email) && |password| >= 8
  {
    EmailIssues("email", email)
      + Check(|password| >= 8, "password", "Password must be at least 8 characters long")
  }

  predicate IsWordChar(c: char) { IsAlnum(c) || c == '_' }
  predicate IsNameChar(c: char) { IsLetter(c) || IsWhitespace(c) }

  function UsernameIssues(s: string): (r: seq<Issue>)
    ensures r == [] <==> 3 <= |s| <= 30 && forall i :: 0 <= i < |s| ==> IsWordChar(s[i])
  {
    Check(|s| >= 3, "username", "Username must be at least 3 characters long")
      + Check(|s| <= 30, "username", "Username must be at most 30 characters long")
      + Check(MatchesPlus(s, IsWordChar), "username",
              "Username can only contain letters, numbers, and underscores")
  }

  function NameIssues(s: string): (r: seq<Issue>)
    ensures r == [] <==> 1 <= |s| <= 50 && forall i :: 0 <= i < |s| ==> IsNameChar(s[i])
  {
    Check(|s| >= 1, "name", "Name is required")
      + Check(|s| <= 50, "name", "Name must be at most 50 characters long")
      + Check(MatchesPlus(s, IsNameChar), "name", "Name can only contain letters and spaces")
  }

  /**
   * The sign-up password: `.min(8)` and four look-ahead regexes. A look-ahead
   * `(?=.*[X])` tested anywhere in the string succeeds at the position of an
   * X, so each amounts to "contains an X".
   */
  function SignUpPasswordIssues(s: string): (r: seq<Issue>)
    ensures r == [] <==>
      (&& |s| >= 8
       && (exists i :: 0 <= i < |s| && IsUpper(s[i]))
       && (exists i :: 0 <= i < |s| && IsLower(s[i]))
       && (exists i :: 0 <= i < |s| && IsDigit(s[i]))
       && (exists i :: 0 <= i < |s| && IsSpecial(s[i])))
  {
    Check(|s| >= 8, "password", "Password must be at least 8 characters long")
      + Check(Contains(s, IsUpper), "password", "Password must contain at least one uppercase letter")
      + Check(Contains(s, IsLower), "password", "Password must contain at least one lowercase letter")
      + Check(Contains(s, IsDigit), "password", "Password must contain at least one number")
      + Check(Contains(s, IsSpecial), "password", "Password must contain at least one special character")
  }

  datatype SignUpForm = SignUpForm(username: string, name: string, email: string, password: string)

  function SignUpIssues(f: SignUpForm): (r: seq<Issue>)
    ensures r == [] <==>
      UsernameIssues(f.username) == [] && NameIssues(f.name) == []
      && EmailShape(f.email) && SignUpPasswordIssues(f.password) == []
  {
    UsernameIssues(f.username) + NameIssues(f.name) + EmailIssues("email", f.email)
      + SignUpPasswordIssues(f.password)
  }

  /** Every password sign-up accepts is also accepted at sign-in. */
  lemma SignUpPasswordPassesSignIn(f: SignUpForm)
    requires SignUpIssues(f) == []
    ensures SignInIssues(f.email, f.password) == []
  {
  }

  // ---------------------------------------------------------------------
  // Asking a question

  function TagIssues(tags: seq<string>, from: nat): (r: seq<Issue>)
    requires from <= |tags|
    ensures r == [] <==> forall i :: from <= i < |tags| ==> 1 <= |tags[i]| <= 30
    decreases |tags| - from
  {
    if from == |tags| then []
    else
      Check(|tags[from]| >= 1, "tags", "Tag cannot be empty")
        + Check(|tags[from]| <= 30, "tags", "Tag must be at most 30 characters long")
        + TagIssues(tags, from + 1)
  }

  function AskQuestionIssues(title: string, content: string, tags: seq<string>): (r: seq<Issue>)
    ensures r == [] <==>
      (&& 5 <= |title| <= 140 && |content| >= 1 && 1 <= |tags| <= 3
       && forall i :: 0 <= i < |tags| ==> 1 <= |tags[i]| <= 30)
  {
    Check(|title| >= 5, "title", "Title must be at least 5 characters long")
      + Check(|title| <= 140, "title", "Title must be at most 140 characters long")
      + Check(|content| >= 1, "content", "Body is required")
      + TagIssues(tags, 0)
      + Check(|tags| >= 1, "tags", "At least one tag is required")
      + Check(|tags| <= 3, "tags", "You can add up to 3 tags")
  }

  // ---------------------------------------------------------------------
  // Accounts

  /** The optional account password: 6..100 characters and four character classes. */
  function AccountPasswordIssues(password: Option<string>): (r: seq<Issue>)
    ensures password.None? ==> r == []
    ensures password.Some? ==> (r == [] <==>
      var s := password.value;
      6 <= |s| <= 100
      && (exists i :: 0 <= i < |s| && IsUpper(s[i]))
      && (exists i :: 0 <= i < |s| && IsLower(s[i]))
      && (exists i :: 0 <= i < |s| && IsDigit(s[i]))
      && (exists i :: 0 <= i < |s| && !IsAlnum(s[i])))
  {
    match password
    case None => []
    case Some(s) =>
      Check(|s| >= 6, "password", "Password must be at least 6 characters long.")
        + Check(|s| <= 100, "password", "Password cannot exceed 100 characters.")
        + Check(Contains(s, IsUpper), "password", "Password must contain at least one uppercase letter.")
        + Check(Contains(s, IsLower), "password", "Password must contain at least one lowercase letter.")
        + Check(Contains(s, IsDigit), "password", "Password must contain at least one number.")
        + Check(Contains(s, c => !IsAlnum(c)), "password",
                "Password must contain at least one special character.")
  }

  function OptionalUrlIssues(path: string, url: Option<string>, isUrl: string -> bool, message: string): (r: seq<Issue>)
    ensures r == [] <==> (url.Some? ==> isUrl(url.value))
  {
    match url
    case None => []
    case Some(u) => Check(isUrl(u), path, message)
  }

  function AccountIssues(a: Account, isUrl: string -> bool): (r: seq<Issue>)
    ensures r == [] <==>
      |a.userId| >= 1 && |a.name| >= 1 && |a.provider| >= 1 && |a.providerAccountId| >= 1
      && (a.image.Some? ==> isUrl(a.image.value))
      && AccountPasswordIssues(a.password) == []
  {
    Check(|a.userId| >= 1, "userId", "User ID is required.")
      + Check(|a.name| >= 1, "name", "Name is required.")
      + OptionalUrlIssues("image", a.image, isUrl, "Please provide a valid URL.")
      + AccountPasswordIssues(a.password)
      + Check(|a.provider| >= 1, "provider", "Provider is required.")
      + Check(|a.providerAccountId| >= 1, "providerAccountId", "Provider Account ID is required.")
  }

  // ---------------------------------------------------------------------
  // OAuth sign-in

  datatype OAuthPayload = OAuthPayload(
    provider: string,
    providerAccountId: string,
    name: string,
    username: string,
    email: string,
    image: Option<string>)

  function OAuthIssues(p: OAuthPayload, isUrl: string -> bool): (r: seq<Issue>)
    ensures r == [] <==>
      (p.provider == "github" || p.provider == "google")
      && |p.providerAccountId| >= 1 && |p.name| >= 1 && |p.username| >= 3
      && EmailShape(p.email)
      && (p.image.Some? ==> isUrl(p.image.value))
  {
    Check(p.provider == "github" || p.provider == "google", "provider", "Invalid enum value")
      + Check(|p.providerAccountId| >= 1, "providerAccountId", "Provider Account ID is required.")
      + Check(|p.name| >= 1, "user.name", "Name is required")
      + Check(|p.username| >= 3, "user.username", "Username must be at least 3 characters long")
      + EmailIssues("user.email", p.email)
      + OptionalUrlIssues("user.image", p.image, isUrl, "Image must be a valid URL")
  }

  // ---------------------------------------------------------------------
  // Pagination, answers, votes, interactions

  function WithDefault(n: Option<int>, default: int): int {
    match n
    case None => default
    case Some(v) => v
  }

  /** `page` and `pageSize`: positive integers, 1 and 10 when absent. */
  function PaginationIssues(page: Option<int>, pageSize: Option<int>): (r: seq<Issue>)
    ensures r == [] <==> WithDefault(page, 1) > 0 && WithDefault(pageSize, 10) > 0
    ensures page.None? && pageSize.None? ==> r == []
  {
    Check(WithDefault(page, 1) > 0, "page", "Number must be greater than 0")
      + Check(WithDefault(pageSize, 10) > 0, "pageSize", "Number must be greater than 0")
  }

  function RequiredIdIssues(path: string, id: string, message: string): (r: seq<Issue>)
    ensures r == [] <==> id != []
  {
    Check(|id| >= 1, path, message)
  }

  function AnswerIssues(content: string): (r: seq<Issue>)
    ensures r == [] <==> |content| >= 50
  {
    Check(|content| >= 50, "content", "Answer must be at least 50 characters long")
  }

  function CreateAnswerIssues(content: string, questionId: Id): (r: seq<Issue>)
    ensures r == [] <==> |content| >= 50 && questionId != []
  {
    AnswerIssues(content) + RequiredIdIssues("questionId", questionId, "Question ID is required")
  }

  function GetAnswersIssues(questionId: Id, page: Option<int>, pageSize: Option<int>): (r: seq<Issue>)
    ensures r == [] <==> questionId != [] && WithDefault(page, 1) > 0 && WithDefault(pageSize, 10) > 0
  {
    PaginationIssues(page, pageSize)
      + RequiredIdIssues("questionId", questionId, "Question ID is required")
  }

  function CreateVoteIssues(targetId: Id): (r: seq<Issue>)
    ensures r == [] <==> targetId != []
  {
    RequiredIdIssues("targetId", targetId, "Target ID is required")
  }

  /** `UpdateVoteSchema`: the vote fields plus an integer `change` in -1..1 (0 included). */
  function UpdateVoteIssues(targetId: Id, change: int): (r: seq<Issue>)
    ensures r == [] <==> targetId != [] && change in {-1, 0, 1}
  {
    CreateVoteIssues(targetId)
      + Check(change >= -1, "change", "Number must be greater than or equal to -1")
      + Check(change <= 1, "change", "Change must be -1, 0, or 1")
  }

  function DeleteAnswerIssues(answerId: Id): (r: seq<Issue>)
    ensures r == [] <==> answerId != []
  {
    RequiredIdIssues("answerId", answerId, "Answer ID is required")
  }

  function CreateInteractionIssues(actionId: Id, authorId: Id): (r: seq<Issue>)
    ensures r == [] <==> actionId != [] && authorId != []
  {
    RequiredIdIssues("actionId", actionId, "Action ID is required")
      + RequiredIdIssues("authorId", authorId, "Author ID is required")
  }
}
