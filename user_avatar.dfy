/**
 * The user avatar: a link to the user's profile showing either the picture
 * or, without one, up to two initials taken from the name.
 *
 * Characters are Unicode scalar values, where JavaScript indexes UTF-16 code
 * units: for a word starting above U+FFFF, `word[0]` is half a surrogate pair
 * there and the whole character here. Upper-casing is modelled for ASCII
 * letters only.
 */
module UserAvatar {
  import opened Model
  import Routes

  // ---------------------------------------------------------------------
  // name.split(' ')

  /** `s.split(' ')`: the pieces between single spaces, empty ones included. */
  function Split(s: string): (r: seq<string>)
    ensures |r| >= 1
    ensures forall k :: 0 <= k < |r| ==> ' ' !in r[k]
  {
    if s == [] then [""]
    else if s[0] == ' ' then [""] + Split(s[1..])
    else
      var rest := Split(s[1..]);
      [[s[0]] + rest[0]] + rest[1..]
  }

  /** `words.join(' ')` */
  function Join(words: seq<string>): string {
    if words == [] then ""
    else if |words| == 1 then words[0]
    else words[0] + " " + Join(words[1..])
  }

  /** Splitting on ' ' and joining with ' ' gives the name back. */
  lemma {:induction false} JoinSplit(s: string)
    ensures Join(Split(s)) == s
    decreases |s|
  {
    if s != [] {
      JoinSplit(s[1..]);
      var rest := Split(s[1..]);
      if s[0] == ' ' {
        assert ([""] + rest)[1..] == rest;
        assert s == [s[0]] + s[1..];
      } else {
        var words := [[s[0]] + rest[0]] + rest[1..];
        assert words[1..] == rest[1..];
        assert s == [s[0]] + s[1..];
        if |rest| > 1 {
          assert Join(rest) == rest[0] + " " + Join(rest[1..]);
        }
      }
    }
  }

  // ---------------------------------------------------------------------
  // The initials

  /** `.map((word) => word[0]).join('')`: an empty word gives `undefined`, which joins as ''. */
  function FirstChars(words: seq<string>): (r: string)
    ensures |r| <= |words|
  {
    if words == [] then ""
    else (if words[0] == [] then "" else [words[0][0]]) + FirstChars(words[1..])
  }

  /**
   * The reference reading: the characters of `s` that start a word, i.e. are
   * not a space and come first or right after a space. `atStart` says whether
   * the previous character was a space (or there was none).
   */
  function WordStarts(s: string, atStart: bool): (r: string)
    ensures |r| <= |s|
    ensures forall k :: 0 <= k < |r| ==> r[k] != ' ' && r[k] in s
  {
    if s == [] then ""
    else (if atStart && s[0] != ' ' then [s[0]] else "") + WordStarts(s[1..], s[0] == ' ')
  }

  /**
   * The first characters of the split words are exactly the word-start
   * characters of the name; and those of every word but the first are the
   * word starts after the first character.
   */
  lemma {:induction false} FirstCharsAreWordStarts(s: string)
    ensures FirstChars(Split(s)) == WordStarts(s, true)
    ensures FirstChars(Split(s)[1..]) == WordStarts(s, false)
    decreases |s|
  {
    if s != [] {
      FirstCharsAreWordStarts(s[1..]);
      var rest := Split(s[1..]);
      if s[0] == ' ' {
        assert ([""] + rest)[1..] == rest;
      } else {
        var words := [[s[0]] + rest[0]] + rest[1..];
        assert words[1..] == rest[1..];
      }
    }
  }

  /** `String.prototype.toUpperCase` for ASCII letters; other characters are kept. */
  function Upper(s: string): (r: string)
    ensures |r| == |s|
    ensures forall k :: 0 <= k < |s| ==> r[k] == if 'a' <= s[k] <= 'z' then (s[k] as int - 32) as char else s[k]
  {
    if s == [] then "" else [if 'a' <= s[0] <= 'z' then (s[0] as int - 32) as char else s[0]] + Upper(s[1..])
  }

  /** `.slice(0, 2)` */
  function Take2(s: string): (r: string)
    ensures |r| <= 2 && r <= s
    ensures |s| >= 2 ==> |r| == 2
    ensures |s| < 2 ==> r == s
  {
    if |s| <= 2 then s else s[..2]
  }

  /** The initials computed as written: split, first characters, join, upper case, first two. */
  function Initials(name: string): (r: string)
    ensures |r| <= 2 && r <= Upper(FirstChars(Split(name)))
    ensures |FirstChars(Split(name))| >= 2 ==> |r| == 2
  {
    Take2(Upper(FirstChars(Split(name))))
  }

  /**
   * The initials are at most two characters: the upper-cased starts of the
   * first two words of the name, with empty words skipped.
   */
  lemma InitialsAreWordStarts(name: string)
    ensures Initials(name) == Take2(Upper(WordStarts(name, true)))
    ensures |Initials(name)| <= 2
    ensures forall k :: 0 <= k < |Initials(name)| ==> Initials(name)[k] != ' '
  {
    FirstCharsAreWordStarts(name);
    var w := WordStarts(name, true);
    assert forall k :: 0 <= k < |Upper(w)| ==> Upper(w)[k] != ' ';
  }

  /** Leading and repeated spaces contribute nothing. */
  lemma {:induction false} SpacesIgnored(a: string, b: string)
    ensures Initials(" " + a) == Initials(a)
    ensures Initials(a + "  " + b) == Initials(a + " " + b)
  {
    FirstCharsAreWordStarts(" " + a);
    FirstCharsAreWordStarts(a);
    assert (" " + a)[1..] == a;
    FirstCharsAreWordStarts(a + "  " + b);
    FirstCharsAreWordStarts(a + " " + b);
    StartsAfterDoubleSpace(a, b, true);
  }

  lemma {:induction false} StartsAfterDoubleSpace(a: string, b: string, atStart: bool)
    ensures WordStarts(a + "  " + b, atStart) == WordStarts(a + " " + b, atStart)
    decreases |a|
  {
    if a == [] {
      assert ("  " + b)[1..] == " " + b;
      assert (" " + b)[1..] == b;
    } else {
      assert (a + "  " + b)[1..] == a[1..] + "  " + b;
      assert (a + " " + b)[1..] == a[1..] + " " + b;
      StartsAfterDoubleSpace(a[1..], b, a[0] == ' ');
    }
  }

  // ---------------------------------------------------------------------
  // The avatar

  /** What the avatar shows: the picture, or the fallback with the initials. */
  datatype Face = Picture(src: string, alt: string) | Fallback(initials: string)

  datatype Avatar = Avatar(href: string, face: Face)

  /** A truthy image URL selects the picture; a missing or empty one the initials. */
  function AvatarOf(id: string, name: string, imageUrl: Option<string>): (r: Avatar)
    ensures r.href == Routes.Profile(id)
    ensures r.face.Picture? <==> imageUrl.Some? && imageUrl.value != ""
    ensures r.face.Picture? ==> r.face == Picture(imageUrl.value, "Avatar of " + name)
    ensures r.face.Fallback? ==> r.face.initials == Take2(Upper(WordStarts(name, true)))
  {
    InitialsAreWordStarts(name);
    var face := if imageUrl.Some? && imageUrl.value != "" then Picture(imageUrl.value, "Avatar of " + name)
                else Fallback(Initials(name));
    Avatar(Routes.Profile(id), face)
  }
}
