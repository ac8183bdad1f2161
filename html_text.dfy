/**
 * Removal of HTML tags from a product description, as the global regular
 * expression replacement `/<[^>]*>/g` with the empty string does it: scanning
 * left to right, a '<' that has some '>' after it is deleted together with
 * everything up to and including the first such '>'; a '<' with no '>' after
 * it is kept, and so is every other character.
 */
module HtmlText {
  import opened Wrappers

  /** No '<' is followed, anywhere later, by a '>': the pattern has nothing left to match. */
  predicate TagFree(s: string) {
    forall i, j :: 0 <= i < j < |s| && s[i] == '<' ==> s[j] != '>'
  }

  /** The index of the first occurrence of `c` in `s`. */
  function IndexOf(s: string, c: char): (k: nat)
    requires c in s
    ensures k < |s| && s[k] == c && c !in s[..k]
    decreases |s|
  {
    if s[0] == c then 0 else 1 + IndexOf(s[1..], c)
  }

  /** Every match of `<[^>]*>` in `s` replaced by the empty string. */
  function RemoveTags(s: string): (r: string)
    ensures |r| <= |s|
    ensures '>' !in s ==> '>' !in r
    ensures TagFree(r)
    decreases |s|
  {
    if |s| == 0 then ""
    else if s[0] == '<' && '>' in s then
      RemoveTags(s[IndexOf(s, '>') + 1..])
    else
      var rest := RemoveTags(s[1..]);
      assert s[0] == '<' ==> '>' !in s[1..];
      [s[0]] + rest
  }

  /** Proof helper: one step of `RemoveTags` when the first character does not open a complete tag. */
  lemma HeadKept(s: string)
    requires |s| > 0 && !(s[0] == '<' && '>' in s)
    ensures RemoveTags(s) == [s[0]] + RemoveTags(s[1..])
  {
  }

  /** Dropping the first character keeps text tag-free. */
  lemma TagFreeTail(s: string)
    requires TagFree(s) && |s| > 0
    ensures TagFree(s[1..])
  {
    var tail := s[1..];
    forall i, j | 0 <= i < j < |tail| && tail[i] == '<' ensures tail[j] != '>' {
      assert s[i + 1] == '<' && s[j + 1] == tail[j];
    }
  }

  /** In tag-free text, a leading '<' means there is no '>' at all. */
  lemma TagFreeLeadingOpen(s: string)
    requires TagFree(s) && |s| > 0 && s[0] == '<'
    ensures '>' !in s
  {
    forall j | 0 <= j < |s| ensures s[j] != '>' {
      if j > 0 { assert s[0] == '<'; }
    }
  }

  /** Text the pattern cannot match is returned unchanged. */
  lemma {:induction false} TagFreeUnchanged(s: string)
    requires TagFree(s)
    ensures RemoveTags(s) == s
    decreases |s|
  {
    if |s| > 0 {
      if s[0] == '<' {
        TagFreeLeadingOpen(s);
      }
      HeadKept(s);
      TagFreeTail(s);
      TagFreeUnchanged(s[1..]);
      assert s == [s[0]] + s[1..];
    }
  }

  /** Text without any '<' is returned unchanged. */
  lemma NoOpenUnchanged(s: string)
    ensures '<' !in s ==> RemoveTags(s) == s
  {
    if '<' !in s {
      TagFreeUnchanged(s);
    }
  }

  /** Stripping twice is stripping once. */
  lemma RemoveTagsIdempotent(s: string)
    ensures RemoveTags(RemoveTags(s)) == RemoveTags(s)
  {
    TagFreeUnchanged(RemoveTags(s));
  }

  /** Text before the first '<' survives, in place. */
  lemma {:induction false} PlainPrefixKept(prefix: string, s: string)
    requires '<' !in prefix
    ensures RemoveTags(prefix + s) == prefix + RemoveTags(s)
    decreases |prefix|
  {
    if |prefix| > 0 {
      var t := prefix + s;
      assert prefix[0] in prefix;
      assert t[0] == prefix[0];
      assert t[1..] == prefix[1..] + s;
      HeadKept(t);
      PlainPrefixKept(prefix[1..], s);
      assert [prefix[0]] + (prefix[1..] + RemoveTags(s)) == prefix + RemoveTags(s);
    } else {
      assert prefix + s == s;
    }
  }

  /** A complete tag `<...>` at the front is dropped, together with its contents. */
  lemma TagDropped(contents: string, s: string)
    requires '>' !in contents
    ensures RemoveTags("<" + contents + ">" + s) == RemoveTags(s)
  {
    var t := "<" + contents + ">" + s;
    var k := IndexOf(t, '>');
    assert t[|contents| + 1] == '>';
    assert forall i :: 0 <= i < |contents| + 1 ==> t[i] != '>' by {
      forall i | 0 <= i < |contents| + 1 ensures t[i] != '>' {
        if i > 0 { assert t[i] == contents[i - 1]; }
      }
    }
    assert k == |contents| + 1;
    assert t[k + 1..] == s;
  }

  /** A '<' with no '>' anywhere after it is kept. */
  lemma UnclosedKept(s: string)
    requires '>' !in s
    ensures RemoveTags("<" + s) == "<" + RemoveTags(s)
  {
  }

  /**
   * The description helper: a falsy description (missing or empty) yields
   * `None`, standing for `undefined`; any other one is returned with its tags
   * removed.
   */
  function StripHtmlTags(description: Option<string>): (r: Option<string>)
    ensures r.None? <==> description.None? || description.value == ""
    ensures r.Some? ==> r.value == RemoveTags(description.value)
    ensures r.Some? ==> TagFree(r.value) && |r.value| <= |description.value|
    ensures r.Some? && '<' !in description.value ==> r.value == description.value
  {
    match description
    case None => None
    case Some(text) =>
      if text == "" then None
      else
        NoOpenUnchanged(text);
        Some(RemoveTags(text))
  }

  /** A paragraph element loses both of its tags. */
  lemma ExampleParagraph()
    ensures RemoveTags("<p>Hi</p>") == "Hi"
  {
    var close := "</p>";
    assert close == "<" + "/p" + ">" + "";
    TagDropped("/p", "");
    assert RemoveTags("") == "";
    assert RemoveTags(close) == "";
    var body := "Hi" + close;
    PlainPrefixKept("Hi", close);
    assert RemoveTags(body) == "Hi";
    assert "<p>Hi</p>" == "<" + "p" + ">" + body;
    TagDropped("p", body);
  }

  /** A second '<' inside a tag is swallowed with it: the tag ends at the first '>'. */
  lemma ExampleNested()
    ensures RemoveTags("a<b<c>d") == "ad"
  {
    HeadKept("a<b<c>d");
    assert "a<b<c>d"[1..] == "<b<c>d";
    assert IndexOf("<b<c>d", '>') == 4;
    assert "<b<c>d"[5..] == "d";
  }

  /** A '<' that is never closed stays in the text. */
  lemma ExampleUnclosed()
    ensures RemoveTags("1<2") == "1<2"
  {
  }
}
