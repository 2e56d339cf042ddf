/**
 * `TagFilterButton`: the sorted list of distinct tags found in the links'
 * comma-separated `tags` fields, and the label shown for the chosen category.
 */
module TagFilter {
  import opened Wrappers
  import opened Text
  import opened Records

  /** `(l.tags || '').split(',')`. */
  function TagPieces(l: Link): seq<string> {
    SplitOnComma(l.tags.GetOr(""))
  }

  /** `.map(t => t.trim())` over one link's pieces. */
  function TrimmedPieces(l: Link): (r: seq<string>)
    ensures |r| == |TagPieces(l)|
    ensures forall j :: 0 <= j < |r| ==> r[j] == Trim(TagPieces(l)[j])
  {
    seq(|TagPieces(l)|, j requires 0 <= j < |TagPieces(l)| => Trim(TagPieces(l)[j]))
  }

  /** `.filter(Boolean)`, collected in a set: the non-empty strings. */
  function NonEmpty(strs: seq<string>): set<string> {
    if strs == [] then {}
    else
      var t := strs[|strs| - 1];
      NonEmpty(strs[..|strs| - 1]) + (if t != [] then {t} else {})
  }

  /** One link's tags. */
  function LinkTags(l: Link): set<string> {
    NonEmpty(TrimmedPieces(l))
  }

  /** The union of a sequence of sets. */
  function UnionOf(sets: seq<set<string>>): set<string> {
    if sets == [] then {}
    else UnionOf(sets[..|sets| - 1]) + sets[|sets| - 1]
  }

  /** Each link's tag set, in list order. */
  function TagSets(links: seq<Link>): (r: seq<set<string>>)
    ensures |r| == |links|
    ensures forall i :: 0 <= i < |links| ==> r[i] == LinkTags(links[i])
  {
    seq(|links|, i requires 0 <= i < |links| => LinkTags(links[i]))
  }

  /** The distinct tags over all links. */
  function AllTags(links: seq<Link>): set<string> {
    UnionOf(TagSets(links))
  }

  /** `t` is the trimmed form of one of the link's comma-separated pieces. */
  predicate IsTrimmedPiece(l: Link, t: string) {
    exists j :: 0 <= j < |TagPieces(l)| && Trim(TagPieces(l)[j]) == t
  }

  lemma {:induction false} NonEmptyMembership(strs: seq<string>, t: string)
    ensures t in NonEmpty(strs) <==> t != [] && t in strs
  {
    if strs != [] {
      var n := |strs| - 1;
      NonEmptyMembership(strs[..n], t);
      assert strs == strs[..n] + [strs[n]];
    }
  }

  lemma {:induction false} UnionMembership(sets: seq<set<string>>, t: string)
    ensures t in UnionOf(sets) <==> exists i :: 0 <= i < |sets| && t in sets[i]
  {
    if sets != [] {
      var n := |sets| - 1;
      UnionMembership(sets[..n], t);
      assert forall i :: 0 <= i < n ==> sets[..n][i] == sets[i];
    }
  }

  lemma AllTagsMembership(links: seq<Link>, t: string)
    ensures t in AllTags(links) <==> exists i :: 0 <= i < |links| && t in LinkTags(links[i])
  {
    UnionMembership(TagSets(links), t);
  }

  /** Taking one more link adds exactly that link's tags. */
  lemma AllTagsSnoc(links: seq<Link>, i: nat)
    requires i < |links|
    ensures AllTags(links[..i + 1]) == AllTags(links[..i]) + LinkTags(links[i])
  {
    assert TagSets(links[..i + 1])[..i] == TagSets(links[..i]);
  }

  /**
   * A tag is offered exactly when it is the non-empty trimmed form of some
   * comma-separated piece of some link's tags.
   */
  lemma TagsAreTrimmedPieces(links: seq<Link>, t: string)
    ensures t in AllTags(links) <==> t != [] && exists i :: 0 <= i < |links| && IsTrimmedPiece(links[i], t)
  {
    AllTagsMembership(links, t);
    forall i | 0 <= i < |links| ensures t in LinkTags(links[i]) <==> t != [] && IsTrimmedPiece(links[i], t) {
      NonEmptyMembership(TrimmedPieces(links[i]), t);
    }
  }

  /** Every offered tag is non-empty and has no leading or trailing whitespace. */
  lemma TagsAreNonEmptyAndTrimmed(links: seq<Link>, t: string)
    requires t in AllTags(links)
    ensures t != [] && !IsJsWhitespace(t[0]) && !IsJsWhitespace(t[|t| - 1])
  {
    TagsAreTrimmedPieces(links, t);
    var i :| 0 <= i < |links| && IsTrimmedPiece(links[i], t);
    var j :| 0 <= j < |TagPieces(links[i])| && Trim(TagPieces(links[i])[j]) == t;
    TrimShape(TagPieces(links[i])[j]);
  }

  /** A link whose tags are absent (or empty) contributes no tag. */
  lemma UntaggedContributesNothing(l: Link)
    requires !Truthy(l.tags)
    ensures LinkTags(l) == {}
  {
    assert l.tags.GetOr("") == [];
    assert TagPieces(l) == [[]];
    var trimmed := TrimmedPieces(l);
    assert trimmed == [[]];
    assert trimmed[..0] == [];
    assert NonEmpty(trimmed) == NonEmpty([]) + {};
  }

  predicate StrictlySorted(s: seq<string>) {
    forall i, j :: 0 <= i < j < |s| ==> LexLess(s[i], s[j])
  }

  /** A strictly sorted list holds no tag twice. */
  lemma StrictlySortedIsDistinct(s: seq<string>)
    requires StrictlySorted(s)
    ensures forall i, j :: 0 <= i < |s| && 0 <= j < |s| && i != j ==> s[i] != s[j]
  {
    forall i, j | 0 <= i < |s| && 0 <= j < |s| && i != j ensures s[i] != s[j] {
      if s[i] == s[j] {
        LexIrreflexive(s[i]);
        assert false;
      }
    }
  }

  function InsertSorted(s: seq<string>, t: string): (r: seq<string>)
    ensures forall x :: x in r <==> x in s || x == t
  {
    if s == [] then [t]
    else if LexLess(t, s[0]) then [t] + s
    else [s[0]] + InsertSorted(s[1..], t)
  }

  lemma {:induction false} InsertSortedKeepsOrder(s: seq<string>, t: string)
    requires StrictlySorted(s) && t !in s
    ensures StrictlySorted(InsertSorted(s, t))
  {
    if s == [] {
    } else if LexLess(t, s[0]) {
      forall j | 0 < j < |s| ensures LexLess(t, s[j]) {
        LexTransitive(t, s[0], s[j]);
      }
    } else {
      LexTotal(t, s[0]);
      InsertSortedKeepsOrder(s[1..], t);
      var rest := InsertSorted(s[1..], t);
      forall k | 0 <= k < |rest| ensures LexLess(s[0], rest[k]) {
        if rest[k] != t {
          assert rest[k] in s[1..];
          var j :| 0 <= j < |s[1..]| && s[1..][j] == rest[k];
          assert s[j + 1] == rest[k];
        }
      }
    }
  }

  /** `Array.from(set).sort()`: the set's elements in ascending order, each once. */
  method SortTags(tags: set<string>) returns (r: seq<string>)
    ensures StrictlySorted(r)
    ensures forall t :: t in r <==> t in tags
  {
    r := [];
    var rest := tags;
    while rest != {}
      invariant rest <= tags
      invariant StrictlySorted(r)
      invariant forall t :: t in r <==> t in tags && t !in rest
      decreases |rest|
    {
      var t :| t in rest;
      InsertSortedKeepsOrder(r, t);
      r := InsertSorted(r, t);
      rest := rest - {t};
    }
  }

  /** The inner `forEach`: adds one link's non-empty trimmed pieces to the set. */
  method AddLinkTags(seen: set<string>, l: Link) returns (r: set<string>)
    ensures r == seen + LinkTags(l)
  {
    var trimmed := TrimmedPieces(l);
    r := seen;
    var j := 0;
    while j < |trimmed|
      invariant 0 <= j <= |trimmed|
      invariant r == seen + NonEmpty(trimmed[..j])
    {
      if trimmed[j] != [] {
        r := r + {trimmed[j]};
      }
      assert trimmed[..j + 1][..j] == trimmed[..j];
      j := j + 1;
    }
    assert trimmed[..j] == trimmed;
  }

  /** The outer `forEach`: the tags of every link, collected in a set. */
  method CollectTags(links: seq<Link>) returns (seen: set<string>)
    ensures seen == AllTags(links)
  {
    seen := {};
    var i := 0;
    while i < |links|
      invariant 0 <= i <= |links|
      invariant seen == AllTags(links[..i])
    {
      seen := AddLinkTags(seen, links[i]);
      AllTagsSnoc(links, i);
      i := i + 1;
    }
    assert links[..i] == links;
  }

  /** The `tags` memo: every link's tags collected in a set, then sorted. */
  method ExtractTags(links: seq<Link>) returns (tags: seq<string>)
    ensures StrictlySorted(tags)
    ensures forall t :: t in tags <==> t in AllTags(links)
  {
    var seen := CollectTags(links);
    tags := SortTags(seen);
  }

  /** `currentLabel`: the tag of a `tag:X` category, otherwise "all" in the interface language. */
  function CurrentLabel(category: string): (shown: string)
    ensures IsPrefix("tag:", category) ==> "tag:" + shown == category
    ensures !IsPrefix("tag:", category) ==> shown == "全部"
  {
    if IsPrefix("tag:", category) then category[4..] else "全部"
  }

  /** Choosing tag X labels the button X. */
  lemma LabelOfChosenTag(x: string)
    ensures CurrentLabel("tag:" + x) == x
  {
    assert ("tag:" + x)[..4] == "tag:";
    assert ("tag:" + x)[4..] == x;
  }
}
