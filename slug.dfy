/**
 * `extractSlug` of files.js: the first match of the unanchored pattern
 * `kickstarter\.com\/projects\/([^/]+\/[^/?#]+)` in a project URL, whose
 * capture group `<owner>/<name>` is the project's slug.
 */
module Slug {
  import opened Values

  const Prefix: string := "kickstarter.com/projects/"

  /** Characters that end the `<name>` part (`[^/?#]+`). */
  const NameStops: set<char> := {'/', '?', '#'}

  /** The length of the longest prefix of `s` with no character of `stops`:
      what a greedy `[^...]+` consumes. */
  function Span(s: string, stops: set<char>): (n: nat)
    ensures n <= |s|
    ensures forall k :: 0 <= k < n ==> s[k] !in stops
    ensures n < |s| ==> s[n] in stops
  {
    if s == [] || s[0] in stops then 0 else 1 + Span(s[1..], stops)
  }

  /** The capture group `[^/]+\/[^/?#]+` matched at the start of `rest`,
      if any. */
  function Capture(rest: string): Option<string> {
    var o := Span(rest, {'/'});
    if 0 < o < |rest| then
      var n := Span(rest[o + 1..], NameStops);
      if n > 0 then Some(rest[..o + 1 + n]) else None
    else None
  }

  /** The capture group of a match starting exactly at index `i`, if any. */
  function SlugAt(url: string, i: nat): Option<string> {
    if i + |Prefix| <= |url| && url[i..i + |Prefix|] == Prefix then Capture(url[i + |Prefix|..])
    else None
  }

  /** No match starts at a position from `i` up to, not including, `j`. */
  predicate NoMatchBetween(url: string, i: nat, j: nat) {
    forall k :: i <= k < j ==> SlugAt(url, k).None?
  }

  /** The start of the leftmost match at or after index `i`, or `|url| + 1`
      when there is none. */
  function SearchFrom(url: string, i: nat): (j: nat)
    requires i <= |url|
    decreases |url| - i
    ensures i <= j <= |url| + 1
    ensures j <= |url| ==> SlugAt(url, j).Some?
    ensures NoMatchBetween(url, i, j)
  {
    if SlugAt(url, i).Some? then i
    else if i == |url| then |url| + 1
    else SearchFrom(url, i + 1)
  }

  /** `extractSlug(url)`: null when no position of the URL matches, otherwise
      the capture group of the leftmost match. */
  function ExtractSlug(url: string): (r: Option<string>)
    ensures r.None? <==> NoMatchBetween(url, 0, |url| + 1)
    ensures r.Some? ==> exists j :: 0 <= j <= |url| && SlugAt(url, j) == r && NoMatchBetween(url, 0, j)
  {
    var j := SearchFrom(url, 0);
    if j <= |url| then SlugAt(url, j) else None
  }

  /** The pattern matches at `i` with `<owner>` and `<name>` as its two parts;
      the last clause is the greediness of `[^/?#]+`. */
  ghost predicate PatternAt(url: string, i: nat, owner: string, name: string) {
    var start := i + |Prefix|;
    var slash := start + |owner|;
    var end := slash + 1 + |name|;
    && end <= |url|
    && url[i..start] == Prefix
    && url[start..slash] == owner
    && url[slash] == '/'
    && url[slash + 1..end] == name
    && owner != [] && (forall k :: 0 <= k < |owner| ==> owner[k] != '/')
    && name != [] && (forall k :: 0 <= k < |name| ==> name[k] !in NameStops)
    && (end < |url| ==> url[end] in NameStops)
  }

  /** A slug has the shape `<owner>/<name>`: exactly one '/', and no '?' or
      '#' after it. (The `<owner>` part may hold '?' and '#'.) */
  ghost predicate SlugShape(s: string) {
    exists o :: 0 < o < |s| - 1 && s[o] == '/'
      && (forall k :: 0 <= k < |s| && k != o ==> s[k] != '/')
      && (forall k :: o < k < |s| ==> s[k] !in NameStops)
  }

  /** `s` occurs in `url` right after an occurrence of the prefix at `i`. */
  ghost predicate FollowsPrefixAt(url: string, i: nat, s: string) {
    && i + |Prefix| + |s| <= |url|
    && url[i..i + |Prefix|] == Prefix
    && url[i + |Prefix|..i + |Prefix| + |s|] == s
  }

  lemma SpanIsMaximal(s: string, stops: set<char>, n: nat)
    requires n <= |s|
    requires forall k :: 0 <= k < n ==> s[k] !in stops
    requires n < |s| ==> s[n] in stops
    ensures Span(s, stops) == n
  {
  }

  /** `rest` starts with `<owner>/<name>` as the capture group matches it. */
  ghost predicate CaptureShape(rest: string, owner: string, name: string) {
    var end := |owner| + 1 + |name|;
    && end <= |rest|
    && rest[..|owner|] == owner
    && rest[|owner|] == '/'
    && rest[|owner| + 1..end] == name
    && owner != [] && (forall k :: 0 <= k < |owner| ==> owner[k] != '/')
    && name != [] && (forall k :: 0 <= k < |name| ==> name[k] !in NameStops)
    && (end < |rest| ==> rest[end] in NameStops)
  }

  lemma CaptureSound(rest: string) returns (owner: string, name: string)
    requires Capture(rest).Some?
    ensures CaptureShape(rest, owner, name)
    ensures Capture(rest).value == owner + "/" + name
  {
    var o := Span(rest, {'/'});
    var n := Span(rest[o + 1..], NameStops);
    owner, name := rest[..o], rest[o + 1..o + 1 + n];
    assert rest[..o + 1 + n] == owner + "/" + name;
  }

  lemma CaptureComplete(rest: string, owner: string, name: string)
    requires CaptureShape(rest, owner, name)
    ensures Capture(rest) == Some(owner + "/" + name)
  {
    SpanIsMaximal(rest, {'/'}, |owner|);
    var tail := rest[|owner| + 1..];
    assert tail[..|name|] == name;
    SpanIsMaximal(tail, NameStops, |name|);
    assert rest[..|owner| + 1 + |name|] == owner + "/" + name;
  }

  /** A match found at `i` is an instance of the pattern. */
  lemma SlugAtSound(url: string, i: nat) returns (owner: string, name: string)
    requires SlugAt(url, i).Some?
    ensures PatternAt(url, i, owner, name)
    ensures SlugAt(url, i).value == owner + "/" + name
  {
    var start := i + |Prefix|;
    var rest := url[start..];
    owner, name := CaptureSound(rest);
    var slash := start + |owner|;
    assert url[start..slash] == rest[..|owner|];
    assert url[slash + 1..slash + 1 + |name|] == rest[|owner| + 1..|owner| + 1 + |name|];
  }

  /** Every instance of the pattern at `i` is what `SlugAt` reports there. */
  lemma SlugAtComplete(url: string, i: nat, owner: string, name: string)
    requires PatternAt(url, i, owner, name)
    ensures SlugAt(url, i) == Some(owner + "/" + name)
  {
    var start := i + |Prefix|;
    var rest := url[start..];
    var slash := start + |owner|;
    assert rest[..|owner|] == url[start..slash];
    assert rest[|owner| + 1..|owner| + 1 + |name|] == url[slash + 1..slash + 1 + |name|];
    CaptureComplete(rest, owner, name);
  }

  /** `extractSlug` returns null exactly when the URL holds no
      `kickstarter.com/projects/<owner>/<name>` segment. */
  lemma ExtractSlugNoneIffNoPattern(url: string)
    ensures ExtractSlug(url).None? <==>
            forall i: nat, owner, name :: !PatternAt(url, i, owner, name)
  {
    if ExtractSlug(url).None? {
      forall i: nat, owner, name | PatternAt(url, i, owner, name)
        ensures false
      {
        SlugAtComplete(url, i, owner, name);
      }
    } else {
      var j :| 0 <= j <= |url| && SlugAt(url, j) == ExtractSlug(url);
      var owner, name := SlugAtSound(url, j);
    }
  }

  lemma JoinedShape(owner: string, name: string)
    requires owner != [] && (forall k :: 0 <= k < |owner| ==> owner[k] != '/')
    requires name != [] && (forall k :: 0 <= k < |name| ==> name[k] !in NameStops)
    ensures SlugShape(owner + "/" + name)
  {
    var s, o := owner + "/" + name, |owner|;
    forall k | 0 <= k < |s| && k != o ensures s[k] != '/' {
      if k < o { assert s[k] == owner[k]; } else { assert s[k] == name[k - o - 1]; }
    }
    forall k | o < k < |s| ensures s[k] !in NameStops {
      assert s[k] == name[k - o - 1];
    }
    assert s[o] == '/';
  }

  /** A returned slug is `<owner>/<name>` with a single '/' and no '?' or '#'
      in its `<name>` part, and it occurs in the URL right after the prefix. */
  lemma ExtractSlugShape(url: string)
    requires ExtractSlug(url).Some?
    ensures SlugShape(ExtractSlug(url).value)
    ensures exists i: nat :: FollowsPrefixAt(url, i, ExtractSlug(url).value)
  {
    var s := ExtractSlug(url).value;
    var j :| 0 <= j <= |url| && SlugAt(url, j) == ExtractSlug(url);
    var owner, name := SlugAtSound(url, j);
    JoinedShape(owner, name);
    PatternFollowsPrefix(url, j, owner, name);
  }

  lemma PatternFollowsPrefix(url: string, i: nat, owner: string, name: string)
    requires PatternAt(url, i, owner, name)
    ensures FollowsPrefixAt(url, i, owner + "/" + name)
  {
    var start := i + |Prefix|;
    var slash := start + |owner|;
    var end := slash + 1 + |name|;
    assert url[start..end] == url[start..slash] + url[slash..slash + 1] + url[slash + 1..end];
  }

  /** A URL that starts with the prefix and `<owner>/<name>` yields that slug,
      whatever follows the name from a '/', '?' or '#' on. */
  lemma LeadingMatch(owner: string, name: string, rest: string)
    requires owner != [] && (forall k :: 0 <= k < |owner| ==> owner[k] != '/')
    requires name != [] && (forall k :: 0 <= k < |name| ==> name[k] !in NameStops)
    requires rest != [] ==> rest[0] in NameStops
    ensures ExtractSlug(Prefix + owner + "/" + name + rest) == Some(owner + "/" + name)
  {
    var url := Prefix + owner + "/" + name + rest;
    var slash := |Prefix| + |owner|;
    var end := slash + 1 + |name|;
    assert url[..|Prefix|] == Prefix;
    assert url[|Prefix|..slash] == owner;
    assert url[slash] == '/';
    assert url[slash + 1..end] == name;
    assert end < |url| ==> url[end] == rest[0];
    assert PatternAt(url, 0, owner, name);
    SlugAtComplete(url, 0, owner, name);
    LeftmostIsFound(url, 0);
  }

  /** The `<owner>` part is `[^/]+`, so a '?' before the second '/' stays in
      the slug. */
  lemma OwnerMayHoldQuery()
    ensures ExtractSlug(Prefix + "a?b/c") == Some("a?b/c")
  {
    var owner, name, rest := "a?b", "c", "";
    assert owner + "/" + name == "a?b/c";
    assert Prefix + owner + "/" + name + rest == Prefix + "a?b/c";
    LeadingMatch(owner, name, rest);
  }

  lemma LeftmostIsFound(url: string, j: nat)
    requires j <= |url| && SlugAt(url, j).Some?
    requires NoMatchBetween(url, 0, j)
    ensures ExtractSlug(url) == SlugAt(url, j)
  {
    var r := ExtractSlug(url);
    var j' :| 0 <= j' <= |url| && SlugAt(url, j') == r && NoMatchBetween(url, 0, j');
  }
}
