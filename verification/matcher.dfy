/**
 The keyword filter: an entry matches when the keyword occurs, ignoring the
 case of letters, in its title, description and thumbnail address joined by
 single spaces (`video_matches` in check_videos.py). The keyword itself is
 the configured setting lower-cased once at start-up.
 */
module Matcher {
  import opened Wrappers
  import opened Text
  import opened Feed

  /** The keyword used when no setting is given. */
  const DefaultKeyword: string := "Ankit Agrawal"

  /** The keyword the watcher searches for: the setting, or the default when
      there is none, lower-cased. */
  function Keyword(setting: Option<string>): (k: string)
    ensures IsLowered(k)
    ensures CaseVariant(setting.GetOr(DefaultKeyword), k)
  {
    Lower(setting.GetOr(DefaultKeyword))
  }

  /** The text searched for the keyword; an entry without a thumbnail
      contributes the empty string in its place. */
  function SearchText(e: Entry): string {
    e.title + " " + e.description + " " + e.thumbnail.GetOr("")
  }

  /**
   Whether the entry matches the keyword. The keyword is compared as given,
   against the lower-cased text, so a keyword holding a capital letter never
   matches anything.
   */
  function Matches(e: Entry, keyword: string): (r: bool)
    ensures r <==> IsSubstring(keyword, Lower(SearchText(e)))
    ensures r ==> IsLowered(keyword)
  {
    var text := Lower(SearchText(e));
    var r := Contains(text, keyword);
    if IsLowered(keyword) then r
    else
      var k :| 0 <= k < |keyword| && IsUpperAscii(keyword[k]);
      UpperNeverInLowered(keyword, text, k);
      r
  }

  /** Changing the case of letters in the title, the description or the
      thumbnail address never changes whether an entry matches. */
  lemma {:induction false} MatchesIgnoresCase(e1: Entry, e2: Entry, keyword: string)
    requires CaseVariant(e1.title, e2.title)
    requires CaseVariant(e1.description, e2.description)
    requires CaseVariant(e1.thumbnail.GetOr(""), e2.thumbnail.GetOr(""))
    ensures Matches(e1, keyword) == Matches(e2, keyword)
  {
    LowerSearchText(e1);
    LowerSearchText(e2);
    CaseVariantLower(e1.title, e2.title);
    CaseVariantLower(e1.description, e2.description);
    CaseVariantLower(e1.thumbnail.GetOr(""), e2.thumbnail.GetOr(""));
  }

  /** Lower-casing the searched text is lower-casing each field. */
  lemma LowerSearchText(e: Entry)
    ensures Lower(SearchText(e))
         == Lower(e.title) + " " + Lower(e.description) + " " + Lower(e.thumbnail.GetOr(""))
  {
    var t, d, h := e.title, e.description, e.thumbnail.GetOr("");
    LowerConcat(t + " " + d + " ", h);
    LowerConcat(t + " " + d, " ");
    LowerConcat(t + " ", d);
    LowerConcat(t, " ");
  }

  /** A keyword that occurs, ignoring case, in any one field makes the entry
      match. */
  lemma FieldHitMatches(e: Entry, keyword: string)
    requires || IsSubstring(keyword, Lower(e.title))
             || IsSubstring(keyword, Lower(e.description))
             || IsSubstring(keyword, Lower(e.thumbnail.GetOr("")))
    ensures Matches(e, keyword)
  {
    LowerSearchText(e);
    var t, d, h := Lower(e.title), Lower(e.description), Lower(e.thumbnail.GetOr(""));
    if IsSubstring(keyword, t) {
      SubstringOfMiddle(keyword, [], t, " " + d + " " + h);
      assert [] + t + (" " + d + " " + h) == t + " " + d + " " + h;
    } else if IsSubstring(keyword, d) {
      SubstringOfMiddle(keyword, t + " ", d, " " + h);
      assert t + " " + d + (" " + h) == t + " " + d + " " + h;
    } else {
      SubstringOfMiddle(keyword, t + " " + d + " ", h, []);
      assert t + " " + d + " " + h + [] == t + " " + d + " " + h;
    }
  }

  /** An entry without a thumbnail matches exactly when the same entry with an
      empty thumbnail address does. */
  lemma MissingThumbnailIsEmpty(e: Entry, keyword: string)
    ensures Matches(e.(thumbnail := None), keyword) == Matches(e.(thumbnail := Some("")), keyword)
  {
  }

  /** The keyword may also be found across the space that joins the title and
      the description: a keyword `a + " " + b` matches an entry whose
      lower-cased title ends with `a` and whose lower-cased description starts
      with `b`. */
  lemma StraddlingMatch(e: Entry, a: string, b: string)
    requires |a| <= |e.title| && Lower(e.title)[|e.title| - |a|..] == a
    requires b <= Lower(e.description)
    ensures Matches(e, a + " " + b)
  {
    LowerSearchText(e);
    var t, d, h := Lower(e.title), Lower(e.description), Lower(e.thumbnail.GetOr(""));
    var k := a + " " + b;
    var text := t + " " + d + " " + h;
    var p := |t| - |a|;
    assert text[p..p + |k|] == k by {
      assert text == t[..p] + (a + " " + b) + d[|b|..] + " " + h;
    }
    assert OccursAt(k, text, p);
  }

  /** An instance: neither the title nor the description holds the default
      keyword, yet the entry matches it. */
  lemma StraddlingExample()
    ensures var e := Entry("v2", "watch ankit", "https://v/2", "2024-01-02", "agrawal today", None);
            && !IsSubstring(Keyword(None), Lower(e.title))
            && !IsSubstring(Keyword(None), Lower(e.description))
            && Matches(e, Keyword(None))
  {
    var e := Entry("v2", "watch ankit", "https://v/2", "2024-01-02", "agrawal today", None);
    var k := Keyword(None);
    DefaultKeywordLowered();
    LowerOfLowered(e.title);
    LowerOfLowered(e.description);
    var d := e.description;
    forall i | 0 <= i && i + |k| <= |d|
      ensures !OccursAt(k, d, i)
    {
      assert d[i..i + |k|][1] != k[1];
    }
    assert "ankit" + " " + "agrawal" == k;
    StraddlingMatch(e, "ankit", "agrawal");
  }

  /** The default keyword, lower-cased. */
  lemma DefaultKeywordLowered()
    ensures Keyword(None) == "ankit agrawal"
  {
  }

  /** The example of a matching entry: a fresh entry titled with the default
      keyword in another case matches. */
  lemma TitleExampleMatches()
    ensures Matches(Entry("v1", "Ankit Agrawal Live", "https://v/1", "2024-01-01T00:00:00Z", "", Some("")), Keyword(None))
  {
    var e := Entry("v1", "Ankit Agrawal Live", "https://v/1", "2024-01-01T00:00:00Z", "", Some(""));
    assert Lower(SearchText(e)) == "ankit agrawal live  ";
    assert OccursAt(Keyword(None), Lower(SearchText(e)), 0);
  }
}
