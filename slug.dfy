/**
  URL slugs derived from a blog post's title: lower-case the title, turn
  spaces into '-', turn every other character that is neither alphanumeric
  nor '-' into '-', and strip '-' from both ends. The blog service and the
  `BlogPost` constructor apply this same transformation.

  Letters and digits are the ASCII ones; see the README for how non-ASCII
  characters are treated.
 */
module Slug {
  import opened Common

  /** Keep alphanumerics and '-', replace everything else with '-'. */
  function Dashify(s: string): (r: string)
    ensures |r| == |s|
    ensures forall i :: 0 <= i < |s| ==>
      r[i] == if IsAsciiAlphanumeric(s[i]) || s[i] == '-' then s[i] else '-'
  {
    seq(|s|, i requires 0 <= i < |s| => if IsAsciiAlphanumeric(s[i]) || s[i] == '-' then s[i] else '-')
  }

  /** `str::trim_matches(c)`: drop every leading and trailing `c`. */
  function TrimMatches(s: string, c: char): (t: string)
    ensures |t| <= |s|
    ensures t != [] ==> t[0] != c && t[|t| - 1] != c
    ensures forall x :: x in t ==> x in s
    decreases |s|
  {
    if s == [] then []
    else if s[0] == c then TrimMatches(s[1..], c)
    else if s[|s| - 1] == c then TrimMatches(s[..|s| - 1], c)
    else s
  }

  /** A well-formed slug: lower-case letters, digits and '-', neither first nor last a '-'. */
  predicate IsSlug(s: string) {
    (forall i :: 0 <= i < |s| ==> ('a' <= s[i] <= 'z') || IsDigit(s[i]) || s[i] == '-')
    && (s != [] ==> s[0] != '-' && s[|s| - 1] != '-')
  }

  function CreateSlug(title: string): (slug: string)
    ensures IsSlug(slug)
    ensures |slug| <= |title|
  {
    var lowered := AsciiLower(title);
    var dashed := Dashify(ReplaceChar(lowered, ' ', '-'));
    var slug := TrimMatches(dashed, '-');
    assert forall k :: 0 <= k < |slug| ==> slug[k] in dashed;
    slug
  }

  lemma TrimMatchesNoop(s: string, c: char)
    requires s != [] ==> s[0] != c && s[|s| - 1] != c
    ensures TrimMatches(s, c) == s
  {
  }

  /** Applying the transformation to a slug gives the slug back. */
  lemma CreateSlugIdempotent(title: string)
    ensures CreateSlug(CreateSlug(title)) == CreateSlug(title)
  {
    var s := CreateSlug(title);
    var lowered := AsciiLower(s);
    assert lowered == s;
    var replaced := ReplaceChar(lowered, ' ', '-');
    assert replaced == s;
    var dashed := Dashify(replaced);
    assert dashed == s;
    TrimMatchesNoop(s, '-');
  }

  /** Separators are not collapsed: two spaces give two dashes. */
  lemma CreateSlugKeepsRuns()
    ensures CreateSlug("a  b") == "a--b"
  {
    var d := Dashify(ReplaceChar(AsciiLower("a  b"), ' ', '-'));
    assert d == "a--b";
  }

  /** Distinct titles can share a slug, which is what the conflict check guards. */
  lemma CreateSlugNotInjective()
    ensures CreateSlug("Hello World") == CreateSlug("hello-world!") == "hello-world"
  {
    var d1 := Dashify(ReplaceChar(AsciiLower("Hello World"), ' ', '-'));
    assert d1 == "hello-world";
    var d2 := Dashify(ReplaceChar(AsciiLower("hello-world!"), ' ', '-'));
    assert d2 == "hello-world-";
    assert TrimMatches(d2, '-') == TrimMatches("hello-world", '-');
  }
}
