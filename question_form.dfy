/**
 * The tag field of the question form: pressing Enter in the tag input adds
 * the trimmed text as a tag, or reports why it cannot; clicking a tag removes
 * it. `TagField` holds the form's `tags` value, the error shown under the
 * field and the text of the input element.
 */
module QuestionForm {
  import opened Model
  import Validation

  // ---------------------------------------------------------------------
  // String.prototype.trim

  function TrimStart(s: string): (r: string)
    ensures |r| <= |s| && r == s[|s| - |r|..]
    ensures forall i :: 0 <= i < |s| - |r| ==> Validation.IsWhitespace(s[i])
    ensures r == [] || !Validation.IsWhitespace(r[0])
  {
    if s != [] && Validation.IsWhitespace(s[0]) then TrimStart(s[1..]) else s
  }

  function TrimEnd(s: string): (r: string)
    ensures |r| <= |s| && r == s[..|r|]
    ensures forall i :: |r| <= i < |s| ==> Validation.IsWhitespace(s[i])
    ensures r == [] || !Validation.IsWhitespace(r[|r| - 1])
  {
    if s != [] && Validation.IsWhitespace(s[|s| - 1]) then TrimEnd(s[..|s| - 1]) else s
  }

  /** How many leading white-space characters `trim` drops. */
  function TrimOffset(s: string): nat {
    |s| - |TrimStart(s)|
  }

  /** `value.trim()`: the text without leading and trailing white space. */
  function Trim(s: string): (r: string)
    ensures r == [] || (!Validation.IsWhitespace(r[0]) && !Validation.IsWhitespace(r[|r| - 1]))
    ensures TrimOffset(s) + |r| <= |s| && r == s[TrimOffset(s)..TrimOffset(s) + |r|]
    ensures forall k :: 0 <= k < TrimOffset(s) ==> Validation.IsWhitespace(s[k])
    ensures forall k :: TrimOffset(s) + |r| <= k < |s| ==> Validation.IsWhitespace(s[k])
  {
    var a := TrimStart(s);
    var r := TrimEnd(a);
    assert r != [] ==> r[0] == a[0];
    r
  }

  lemma TrimStartFixed(s: string)
    requires s == [] || !Validation.IsWhitespace(s[0])
    ensures TrimStart(s) == s
  {
  }

  lemma TrimEndFixed(s: string)
    requires s == [] || !Validation.IsWhitespace(s[|s| - 1])
    ensures TrimEnd(s) == s
  {
  }

  /** Trimming twice is trimming once. */
  lemma TrimIdempotent(s: string)
    ensures Trim(Trim(s)) == Trim(s)
  {
    var t := Trim(s);
    TrimStartFixed(t);
    TrimEndFixed(t);
  }

  // ---------------------------------------------------------------------
  // The rules

  const TooLong := "Tag should be less than 15 characters"
  const Duplicate := "Tag already exists"
  const Required := "Tags are required"

  /** The tags, the field's error message, and the text in the input. */
  datatype TagState = TagState(tags: seq<string>, error: Option<string>, input: string)

  /**
   * `handleInputKeyDown`: on Enter, a non-empty trimmed text shorter than 15
   * characters and not yet present is appended (the input is cleared and the
   * error removed); a text longer than 15 reports it is too long; a text
   * already present reports the duplicate; anything else does nothing.
   */
  function KeyDown(s: TagState, key: string): (r: TagState)
    ensures r.tags == s.tags || r.tags == s.tags + [Trim(s.input)]
  {
    if key != "Enter" then s
    else
      var t := Trim(s.input);
      if t != [] && |t| < 15 && t !in s.tags then TagState(s.tags + [t], None, [])
      else if |t| > 15 then s.(error := Some(TooLong))
      else if t in s.tags then s.(error := Some(Duplicate))
      else s
  }

  /** Every case of `KeyDown`, and when a tag is added. */
  lemma KeyDownRules(s: TagState, key: string)
    ensures key != "Enter" ==> KeyDown(s, key) == s
    ensures key == "Enter" ==>
      var r, t := KeyDown(s, key), Trim(s.input);
      && (r.tags == s.tags + [t] <==> t != [] && |t| < 15 && t !in s.tags)
      && (r.tags == s.tags + [t] ==> r.input == [] && r.error == None)
      && (|t| > 15 ==> r == s.(error := Some(TooLong)))
      && (|t| <= 15 && t in s.tags ==> r == s.(error := Some(Duplicate)))
      && (|t| == 15 && t !in s.tags ==> r == s)
      && (t == [] && t !in s.tags ==> r == s)
  {
  }

  predicate NoDuplicates(tags: seq<string>) {
    forall i, j :: 0 <= i < j < |tags| ==> tags[i] != tags[j]
  }

  /** Every tag the field can hold: trimmed, non-empty and at most 14 characters. */
  predicate WellFormedTag(t: string) {
    t != [] && |t| < 15 && Trim(t) == t
  }

  /** Adding by Enter keeps the list free of duplicates and of malformed tags. */
  lemma KeyDownKeepsTagsWellFormed(s: TagState, key: string)
    requires NoDuplicates(s.tags) && forall i :: 0 <= i < |s.tags| ==> WellFormedTag(s.tags[i])
    ensures var r := KeyDown(s, key);
      && NoDuplicates(r.tags)
      && forall i :: 0 <= i < |r.tags| ==> WellFormedTag(r.tags[i])
  {
    var r := KeyDown(s, key);
    if r.tags != s.tags {
      var t := Trim(s.input);
      assert key == "Enter" && t != [] && |t| < 15 && t !in s.tags && r.tags == s.tags + [t];
      TrimIdempotent(s.input);
      AppendKeepsTags(s.tags, t);
    }
  }

  lemma AppendKeepsTags(tags: seq<string>, t: string)
    requires NoDuplicates(tags) && forall i :: 0 <= i < |tags| ==> WellFormedTag(tags[i])
    requires WellFormedTag(t) && t !in tags
    ensures NoDuplicates(tags + [t]) && forall i :: 0 <= i < |tags + [t]| ==> WellFormedTag((tags + [t])[i])
  {
    var u := tags + [t];
    forall i, j | 0 <= i < j < |u| ensures u[i] != u[j] {
      if j == |tags| {
        assert u[i] == tags[i];
      } else {
        assert u[i] == tags[i] && u[j] == tags[j];
      }
    }
  }

  /** `field.value.filter((t) => t !== tag)` */
  function Without(tags: seq<string>, tag: string): (r: seq<string>)
    ensures |r| <= |tags|
    ensures forall t :: t in r <==> t in tags && t != tag
    ensures forall t :: multiset(r)[t] == if t == tag then 0 else multiset(tags)[t]
    ensures tag !in tags ==> r == tags
  {
    if tags == [] then []
    else
      assert forall t :: t in tags <==> t == tags[0] || t in tags[1..];
      assert multiset(tags) == multiset([tags[0]]) + multiset(tags[1..]) by {
        assert tags == [tags[0]] + tags[1..];
      }
      if tags[0] == tag then Without(tags[1..], tag)
      else
        assert tags == [tags[0]] + tags[1..];
        [tags[0]] + Without(tags[1..], tag)
  }

  /** Removal keeps the remaining tags in their order: it is a subsequence. */
  predicate Subsequence(a: seq<string>, b: seq<string>)
    decreases |b|
  {
    a == [] || (b != [] && (if a[0] == b[0] then Subsequence(a[1..], b[1..]) else Subsequence(a, b[1..])))
  }

  lemma {:induction false} WithoutIsSubsequence(tags: seq<string>, tag: string)
    ensures Subsequence(Without(tags, tag), tags)
    decreases |tags|
  {
    if tags != [] {
      WithoutIsSubsequence(tags[1..], tag);
      var w := Without(tags[1..], tag);
      if tags[0] == tag {
        assert w == [] || w[0] != tags[0] by {
          if w != [] { assert w[0] in w; }
        }
      }
    }
  }

  /**
   * `handleTagRemove`: every entry equal to the tag goes; when none is left
   * the field reports that tags are required; the input is left alone.
   */
  function TagRemoved(s: TagState, tag: string): (r: TagState)
    ensures r.tags == Without(s.tags, tag) && r.input == s.input
    ensures r.error == if r.tags == [] then Some(Required) else s.error
  {
    var newTags := Without(s.tags, tag);
    TagState(newTags, if |newTags| == 0 then Some(Required) else s.error, s.input)
  }

  /** Removing a tag just added restores the list (the input stays cleared). */
  lemma {:induction false} AddThenRemove(s: TagState)
    requires Trim(s.input) != [] && |Trim(s.input)| < 15 && Trim(s.input) !in s.tags
    ensures TagRemoved(KeyDown(s, "Enter"), Trim(s.input)).tags == s.tags
  {
    var t := Trim(s.input);
    WithoutAppend(s.tags, t);
  }

  lemma {:induction false} WithoutAppend(tags: seq<string>, t: string)
    requires t !in tags
    ensures Without(tags + [t], t) == tags
    decreases |tags|
  {
    if tags == [] {
      assert [t][1..] == [];
    } else {
      assert (tags + [t])[1..] == tags[1..] + [t];
      WithoutAppend(tags[1..], t);
    }
  }

  // ---------------------------------------------------------------------
  // The form state

  class TagField {
    var tags: seq<string>
    var error: Option<string>
    var input: string

    function State(): TagState
      reads this
    {
      TagState(tags, error, input)
    }

    /** `defaultValues.tags`: the question's tag names, or none for a new question. */
    constructor (initial: seq<string>)
      ensures State() == TagState(initial, None, [])
    {
      tags, error, input := initial, None, [];
    }

    /** Typing into the tag input. */
    method Type(text: string)
      modifies this
      ensures State() == old(State()).(input := text)
    {
      input := text;
    }

    method HandleInputKeyDown(key: string)
      modifies this
      ensures State() == KeyDown(old(State()), key)
    {
      if key == "Enter" {
        var tagInput := Trim(input);
        if tagInput != [] && |tagInput| < 15 && tagInput !in tags {
          tags := tags + [tagInput];
          input := [];
          error := None;
        } else if |tagInput| > 15 {
          error := Some(TooLong);
        } else if tagInput in tags {
          error := Some(Duplicate);
        }
      }
    }

    method HandleTagRemove(tag: string)
      modifies this
      ensures State() == TagRemoved(old(State()), tag)
    {
      var newTags := Without(tags, tag);
      tags := newTags;
      if |newTags| == 0 {
        error := Some(Required);
      }
    }
  }
}
