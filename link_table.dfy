/**
 * The `links` table as a sequence of rows, and the pure transforms its SQL
 * statements perform: ORDER BY, the search WHERE clause, UPDATE and DELETE.
 */
module LinkTable {
  import opened Wrappers
  import opened Text
  import opened Records
  import opened SqlLike
  import opened Seqs

  /** `ORDER BY visit_count DESC, created_at DESC`: `a` may come before `b`. */
  predicate RanksBefore(a: Link, b: Link) {
    a.visitCount > b.visitCount || (a.visitCount == b.visitCount && a.createdAt >= b.createdAt)
  }

  predicate RankOrdered(s: seq<Link>) {
    forall i, j :: 0 <= i < j < |s| ==> RanksBefore(s[i], s[j])
  }

  function InsertByRank(x: Link, s: seq<Link>): (r: seq<Link>)
    ensures multiset(r) == multiset(s) + multiset{x}
  {
    if s == [] then [x]
    else if RanksBefore(x, s[0]) then [x] + s
    else
      assert s == [s[0]] + s[1..];
      [s[0]] + InsertByRank(x, s[1..])
  }

  lemma {:induction false} InsertByRankKeepsOrder(x: Link, s: seq<Link>)
    requires RankOrdered(s)
    ensures RankOrdered(InsertByRank(x, s))
  {
    if s != [] && !RanksBefore(x, s[0]) {
      var rest := InsertByRank(x, s[1..]);
      InsertByRankKeepsOrder(x, s[1..]);
      forall k | 0 <= k < |rest| ensures RanksBefore(s[0], rest[k]) {
        assert rest[k] in multiset(rest);
        if rest[k] != x {
          assert rest[k] in multiset(s[1..]);
          var j :| 0 <= j < |s[1..]| && s[1..][j] == rest[k];
          assert s[j + 1] == rest[k];
        }
      }
    }
  }

  /** The rows in `ORDER BY visit_count DESC, created_at DESC` order; rows that tie keep some order. */
  function SortByRank(s: seq<Link>): (r: seq<Link>)
    ensures RankOrdered(r)
    ensures multiset(r) == multiset(s)
  {
    if s == [] then []
    else
      assert s == [s[0]] + s[1..];
      var sorted := SortByRank(s[1..]);
      InsertByRankKeepsOrder(s[0], sorted);
      InsertByRank(s[0], sorted)
  }

  /** A WHERE clause keeps the order of an ordered table. */
  lemma {:induction false} FilterKeepsRankOrder(s: seq<Link>, keep: Link -> bool)
    requires RankOrdered(s)
    ensures RankOrdered(Filter(s, keep))
  {
    if s != [] {
      FilterKeepsRankOrder(s[1..], keep);
      var rest := Filter(s[1..], keep);
      forall k | 0 <= k < |rest| ensures RanksBefore(s[0], rest[k]) {
        var j :| 0 <= j < |s[1..]| && s[1..][j] == rest[k];
        assert s[j + 1] == rest[k];
      }
    }
  }

  /** `WHERE (title LIKE '%q%' OR url LIKE '%q%' OR tags LIKE '%q%') [AND tags LIKE '%tag%']`. */
  predicate RowMatches(l: Link, query: string, tag: Option<string>) {
    && (Like(l.title, Surround(query)) || Like(l.url, Surround(query)) || LikeColumn(l.tags, Surround(query)))
    && (Truthy(tag) ==> LikeColumn(l.tags, Surround(tag.value)))
  }

  function MatchingRows(rows: seq<Link>, query: string, tag: Option<string>): seq<Link> {
    Filter(rows, (l: Link) => RowMatches(l, query, tag))
  }

  /**
   * For search terms without `%` or `_`, a row matches exactly when title, url or tags
   * contains the query ignoring ASCII case and, for a non-empty tag, the tags contain the tag.
   */
  lemma SearchSemantics(l: Link, query: string, tag: Option<string>)
    requires NoWildcards(query)
    requires Truthy(tag) ==> NoWildcards(tag.value)
    ensures RowMatches(l, query, tag) <==>
      && (|| ContainsIgnoringCase(l.title, query)
          || ContainsIgnoringCase(l.url, query)
          || (l.tags.Some? && ContainsIgnoringCase(l.tags.value, query)))
      && (Truthy(tag) ==> l.tags.Some? && ContainsIgnoringCase(l.tags.value, tag.value))
  {
    LikeSurroundedIsContains(l.title, query);
    LikeSurroundedIsContains(l.url, query);
    if l.tags.Some? {
      LikeSurroundedIsContains(l.tags.value, query);
      if Truthy(tag) {
        LikeSurroundedIsContains(l.tags.value, tag.value);
      }
    }
  }

  /** The tag filter is a substring test: filtering by "dev" keeps a row tagged "development". */
  lemma TagFilterIsSubstring(l: Link)
    requires l.tags == Some("development")
    ensures RowMatches(l, "", Some("dev"))
  {
    LikeSurroundedIsContains(l.tags.value, "");
    LikeSurroundedIsContains(l.tags.value, "dev");
    ContainsAt(Lower("development"), Lower("dev"), 0);
  }

  /** The first row with the given id. */
  function Lookup(rows: seq<Link>, id: int): (r: Option<Link>)
    ensures r.Some? ==> r.value in rows && r.value.id == id
    ensures r.None? <==> forall i :: 0 <= i < |rows| ==> rows[i].id != id
  {
    if rows == [] then None
    else if rows[0].id == id then Some(rows[0])
    else Lookup(rows[1..], id)
  }

  predicate IdsUnique(rows: seq<Link>) {
    forall i, j :: 0 <= i < j < |rows| ==> rows[i].id != rows[j].id
  }

  /** The `UNIQUE` constraint on `url`. */
  predicate UrlsUnique(rows: seq<Link>) {
    forall i, j :: 0 <= i < j < |rows| ==> rows[i].url != rows[j].url
  }

  predicate HasUrl(rows: seq<Link>, url: string) {
    exists i :: 0 <= i < |rows| && rows[i].url == url
  }

  /** Some row other than `id` already holds `url`. */
  predicate UrlTakenByOther(rows: seq<Link>, id: int, url: string) {
    exists i :: 0 <= i < |rows| && rows[i].url == url && rows[i].id != id
  }

  function RowsWithUrl(rows: seq<Link>, url: string): seq<Link> {
    Filter(rows, (l: Link) => l.url == url)
  }

  /** Under the `UNIQUE` constraint a stored url belongs to exactly one row. */
  lemma {:induction false} OneRowPerUrl(rows: seq<Link>, url: string)
    requires UrlsUnique(rows) && HasUrl(rows, url)
    ensures |RowsWithUrl(rows, url)| == 1
  {
    if rows[0].url == url {
      assert !HasUrl(rows[1..], url);
      NoRowWithUrl(rows[1..], url);
    } else {
      var i :| 0 <= i < |rows| && rows[i].url == url;
      assert rows[1..][i - 1].url == url;
      OneRowPerUrl(rows[1..], url);
    }
  }

  lemma {:induction false} NoRowWithUrl(rows: seq<Link>, url: string)
    requires !HasUrl(rows, url)
    ensures RowsWithUrl(rows, url) == []
  {
    if rows != [] {
      assert rows[0].url != url;
      assert !HasUrl(rows[1..], url);
      NoRowWithUrl(rows[1..], url);
    }
  }

  /** `DELETE FROM links WHERE id = ?` (and the view's `links.filter(link => link.id !== id)`). */
  function WithoutId(rows: seq<Link>, id: int): seq<Link> {
    Filter(rows, (l: Link) => l.id != id)
  }

  /** Deleting removes every row with the id and keeps the others, in order. */
  lemma WithoutIdEffect(rows: seq<Link>, id: int)
    ensures Lookup(WithoutId(rows, id), id) == None
    ensures forall l :: l in rows && l.id != id ==> l in WithoutId(rows, id)
    ensures IsSubsequence(WithoutId(rows, id), rows)
  {
    FilterIsSubsequence(rows, (l: Link) => l.id != id);
  }

  /** A second delete of the same id changes nothing. */
  lemma DeleteTwice(rows: seq<Link>, id: int)
    ensures WithoutId(WithoutId(rows, id), id) == WithoutId(rows, id)
  {
    FilterKeepsAll(WithoutId(rows, id), (l: Link) => l.id != id);
  }

  /** Deleting an id no row carries changes nothing. */
  lemma DeleteUnknown(rows: seq<Link>, id: int)
    requires Lookup(rows, id) == None
    ensures WithoutId(rows, id) == rows
  {
    FilterKeepsAll(rows, (l: Link) => l.id != id);
  }

  lemma {:induction false} FilterKeepsUnique(rows: seq<Link>, keep: Link -> bool)
    requires IdsUnique(rows) && UrlsUnique(rows)
    ensures IdsUnique(Filter(rows, keep)) && UrlsUnique(Filter(rows, keep))
  {
    if rows != [] {
      FilterKeepsUnique(rows[1..], keep);
      var rest := Filter(rows[1..], keep);
      forall k | 0 <= k < |rest| ensures rows[0].id != rest[k].id && rows[0].url != rest[k].url {
        var j :| 0 <= j < |rows[1..]| && rows[1..][j] == rest[k];
        assert rows[j + 1] == rest[k];
      }
    }
  }

  /** `SET visit_count = visit_count + 1, updated_at = now WHERE id = ?`. */
  function WithVisit(rows: seq<Link>, id: int, now: Time): (r: seq<Link>)
    ensures |r| == |rows|
  {
    seq(|rows|, i requires 0 <= i < |rows| =>
      if rows[i].id == id then rows[i].(visitCount := rows[i].visitCount + 1, updatedAt := now) else rows[i])
  }

  /** The visited row gains exactly one visit; every other row is untouched. */
  lemma {:induction false} WithVisitLookup(rows: seq<Link>, id: int, now: Time, other: int)
    ensures Lookup(WithVisit(rows, id, now), other) ==
      match Lookup(rows, other)
      case None => None
      case Some(l) => Some(if other == id then l.(visitCount := l.visitCount + 1, updatedAt := now) else l)
  {
    if rows != [] {
      assert WithVisit(rows, id, now)[1..] == WithVisit(rows[1..], id, now);
      WithVisitLookup(rows[1..], id, now, other);
    }
  }

  /** Incrementing an id no row carries changes nothing. */
  lemma WithVisitUnknown(rows: seq<Link>, id: int, now: Time)
    requires Lookup(rows, id) == None
    ensures WithVisit(rows, id, now) == rows
  {
  }

  /** `n` increments in a row. */
  function VisitedTimes(rows: seq<Link>, id: int, now: Time, n: nat): seq<Link> {
    if n == 0 then rows else WithVisit(VisitedTimes(rows, id, now, n - 1), id, now)
  }

  /** Incrementing `n` times raises the row's visit count by exactly `n`. */
  lemma {:induction false} VisitedTimesCount(rows: seq<Link>, id: int, now: Time, n: nat)
    requires Lookup(rows, id).Some?
    ensures Lookup(VisitedTimes(rows, id, now, n), id).Some?
    ensures Lookup(VisitedTimes(rows, id, now, n), id).value.visitCount == Lookup(rows, id).value.visitCount + n
  {
    if n > 0 {
      VisitedTimesCount(rows, id, now, n - 1);
      WithVisitLookup(VisitedTimes(rows, id, now, n - 1), id, now, id);
    }
  }

  /** `SET title = ?, url = ?, tags = ?, updated_at = now WHERE id = ?`. */
  function WithEdit(rows: seq<Link>, id: int, title: string, url: string, tags: Option<string>, now: Time): (r: seq<Link>)
    ensures |r| == |rows|
  {
    seq(|rows|, i requires 0 <= i < |rows| =>
      if rows[i].id == id then rows[i].(title := title, url := url, tags := tags, updatedAt := now) else rows[i])
  }

  /** An edit rewrites title, url and tags of its row only; favicon, visit count and creation time stay. */
  lemma {:induction false} WithEditLookup(rows: seq<Link>, id: int, title: string, url: string, tags: Option<string>, now: Time, other: int)
    ensures Lookup(WithEdit(rows, id, title, url, tags, now), other) ==
      match Lookup(rows, other)
      case None => None
      case Some(l) => Some(if other == id then Link(l.id, title, url, l.favicon, tags, l.visitCount, l.createdAt, now) else l)
  {
    if rows != [] {
      assert WithEdit(rows, id, title, url, tags, now)[1..] == WithEdit(rows[1..], id, title, url, tags, now);
      WithEditLookup(rows[1..], id, title, url, tags, now, other);
    }
  }

  /** An edit that takes no other row's url keeps urls unique. */
  lemma WithEditKeepsUnique(rows: seq<Link>, id: int, title: string, url: string, tags: Option<string>, now: Time)
    requires IdsUnique(rows) && UrlsUnique(rows) && !UrlTakenByOther(rows, id, url)
    ensures IdsUnique(WithEdit(rows, id, title, url, tags, now)) && UrlsUnique(WithEdit(rows, id, title, url, tags, now))
  {
  }
}
