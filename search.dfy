/** The search-term tally: `updateSearchDb` counts each normalised search
    text and keeps only the 10000 best-ranked entries; `getTopSearches` lists
    entries. The collection is the store's `searches` sequence, in the order
    an unsorted `find()` returns it. */
module Search {
  import opened Common
  import opened Entities
  import opened Seqs
  import opened Ordering
  import opened Strings
  import opened Db

  /** The number of entries an update keeps. */
  const Cap: nat := 10000

  /** The key a search text is stored under: `searchText.trim().toLowerCase()`. */
  function Normalize(text: string): (key: string)
    ensures |key| <= |text|
    ensures key == [] <==> IsBlank(text)
    ensures forall i :: 0 <= i < |key| ==> !('A' <= key[i] <= 'Z')
    ensures key != [] ==> !IsJsSpace(key[0]) && !IsJsSpace(key[|key| - 1])
  {
    ToLower(Trim(text))
  }

  /** A stored key normalises to itself: searching for it again counts it
      under the same entry. */
  lemma NormalizeIdempotent(text: string)
    ensures Normalize(Normalize(text)) == Normalize(text)
  {
    var key := Normalize(text);
    if key != [] {
      assert Leading(key) == 0;
      assert Trailing(key) == 0;
      assert Trim(key) == key;
    }
    ToLowerIdempotent(key);
  }

  /** No two entries share a search text: the unique index on `searchText`. */
  ghost predicate UniqueTexts(s: seq<SearchEntry>) {
    forall i, j :: 0 <= i < j < |s| ==> s[i].searchText != s[j].searchText
  }

  /** The count of the entry stored under `key`, or 0 when there is none. */
  function CountOf(s: seq<SearchEntry>, key: string): nat {
    if s == [] then 0
    else if s[0].searchText == key then s[0].count
    else CountOf(s[1..], key)
  }

  // ---------------------------------------------------------------------------
  // Tally

  /** The entry for `key` searched once more: its count incremented and
      `updatedAt` refreshed by the save, or a new entry with the schema's
      default count 1 appended. */
  function Tallied(s: seq<SearchEntry>, key: string, now: Time): (r: seq<SearchEntry>)
    ensures |r| == |s| || |r| == |s| + 1
  {
    if s == [] then [SearchEntry(key, 1, now, now)]
    else if s[0].searchText == key then [s[0].(count := s[0].count + 1, updatedAt := now)] + s[1..]
    else [s[0]] + Tallied(s[1..], key, now)
  }

  /** Searching for `key` adds exactly one to its count and leaves every
      other count as it was. */
  lemma {:induction false} TallyCounts(s: seq<SearchEntry>, key: string, now: Time, other: string)
    requires other != key
    ensures CountOf(Tallied(s, key, now), key) == CountOf(s, key) + 1
    ensures CountOf(Tallied(s, key, now), other) == CountOf(s, other)
  {
    if s != [] && s[0].searchText != key {
      TallyCounts(s[1..], key, now, other);
      var r := Tallied(s, key, now);
      assert r[1..] == Tallied(s[1..], key, now);
    } else if s != [] {
      var r := Tallied(s, key, now);
      assert r[1..] == s[1..];
    }
  }

  /** The tally keeps the search texts unique. */
  lemma {:induction false} TallyUnique(s: seq<SearchEntry>, key: string, now: Time)
    requires UniqueTexts(s)
    ensures UniqueTexts(Tallied(s, key, now))
    ensures forall e :: e in Tallied(s, key, now) ==> e.searchText == key || e in s
  {
    if s != [] {
      var t := s[1..];
      UniqueSplit(s);
      var r := Tallied(s, key, now);
      if s[0].searchText != key {
        TallyUnique(t, key, now);
        var rest := Tallied(t, key, now);
        assert r == [s[0]] + rest;
        forall e | e in rest
          ensures e.searchText != s[0].searchText
        {
        }
        UniqueCons(s[0], rest);
      } else {
        var first := s[0].(count := s[0].count + 1, updatedAt := now);
        assert r == [first] + t;
        UniqueCons(first, t);
      }
    }
  }

  /** A unique sequence is its head, whose text no later entry has, and a
      unique tail. */
  lemma UniqueSplit(s: seq<SearchEntry>)
    requires s != [] && UniqueTexts(s)
    ensures UniqueTexts(s[1..])
    ensures forall e :: e in s[1..] ==> e.searchText != s[0].searchText
  {
    var t := s[1..];
    forall i, j | 0 <= i < j < |t|
      ensures t[i].searchText != t[j].searchText
    {
      assert t[i] == s[i + 1] && t[j] == s[j + 1];
    }
    forall e | e in t
      ensures e.searchText != s[0].searchText
    {
      var k :| 0 <= k < |t| && t[k] == e;
      assert s[k + 1] == e;
    }
  }

  /** Prepending an entry whose text the rest does not hold keeps the texts
      unique. */
  lemma UniqueCons(x: SearchEntry, rest: seq<SearchEntry>)
    requires UniqueTexts(rest)
    requires forall e :: e in rest ==> e.searchText != x.searchText
    ensures UniqueTexts([x] + rest)
  {
    var r := [x] + rest;
    forall i, j | 0 <= i < j < |r|
      ensures r[i].searchText != r[j].searchText
    {
      assert r[j] == rest[j - 1];
      if i == 0 {
        assert rest[j - 1] in rest;
      } else {
        assert r[i] == rest[i - 1];
      }
    }
  }

  /** The tally as the controller performs it: update the first entry with
      the key, or append a new one. */
  lemma {:induction false} TalliedAt(s: seq<SearchEntry>, key: string, now: Time, i: nat)
    requires i <= |s|
    requires forall j :: 0 <= j < i ==> s[j].searchText != key
    requires i < |s| ==> s[i].searchText == key
    ensures i < |s| ==> Tallied(s, key, now) == s[i := s[i].(count := s[i].count + 1, updatedAt := now)]
    ensures i == |s| ==> Tallied(s, key, now) == s + [SearchEntry(key, 1, now, now)]
  {
    if s != [] && i > 0 {
      TalliedAt(s[1..], key, now, i - 1);
      if i < |s| {
        assert s[i := s[i].(count := s[i].count + 1, updatedAt := now)]
               == [s[0]] + s[1..][i - 1 := s[i].(count := s[i].count + 1, updatedAt := now)];
      } else {
        assert s + [SearchEntry(key, 1, now, now)] == [s[0]] + (s[1..] + [SearchEntry(key, 1, now, now)]);
      }
    }
  }

  // ---------------------------------------------------------------------------
  // Cap

  /** `sort({count: -1, updatedAt: -1})`: more searched first, then more
      recently searched. */
  predicate RankLe(a: SearchEntry, b: SearchEntry) {
    a.count > b.count || (a.count == b.count && a.updatedAt >= b.updatedAt)
  }

  lemma RankLeIsTotalPreorder()
    ensures TotalPreorder(RankLe)
  {
  }

  function Ranked(s: seq<SearchEntry>): (r: seq<SearchEntry>)
    ensures multiset(r) == multiset(s)
    ensures SortedBy(r, RankLe)
  {
    RankLeIsTotalPreorder();
    SortBySorted(s, RankLe);
    SortBy(s, RankLe)
  }

  /** `.skip(10000)` of the ranking: the entries the update deletes. */
  function Doomed(s: seq<SearchEntry>): (d: seq<SearchEntry>)
    ensures |d| == |s| - Min(Cap, |s|)
  {
    Ranked(s)[Min(Cap, |s|)..]
  }

  /** `s` without the entries listed in `gone`, in the remaining order. */
  function Without(s: seq<SearchEntry>, gone: seq<SearchEntry>): (r: seq<SearchEntry>)
    ensures |r| <= |s|
    ensures forall e :: e in r <==> e in s && e !in gone
  {
    if s == [] then []
    else if s[0] in gone then Without(s[1..], gone)
    else
      assert s == [s[0]] + s[1..];
      [s[0]] + Without(s[1..], gone)
  }

  /** Deleting one more entry from what was left. */
  lemma {:induction false} WithoutStep(s: seq<SearchEntry>, gone: seq<SearchEntry>, x: SearchEntry)
    ensures Without(Without(s, gone), [x]) == Without(s, gone + [x])
  {
    if s != [] {
      WithoutStep(s[1..], gone, x);
      assert s[0] in gone + [x] <==> s[0] in gone || s[0] == x;
    }
  }

  lemma {:induction false} WithoutNoDup(s: seq<SearchEntry>, gone: seq<SearchEntry>)
    requires NoDup(s)
    ensures NoDup(Without(s, gone))
  {
    if s != [] {
      var t := s[1..];
      NoDupTail(s);
      WithoutNoDup(t, gone);
      if s[0] !in gone {
        assert Without(s, gone) == [s[0]] + Without(t, gone);
        NoDupCons(s[0], Without(t, gone));
      }
    }
  }

  lemma {:induction false} WithoutUnique(s: seq<SearchEntry>, gone: seq<SearchEntry>)
    requires UniqueTexts(s)
    ensures UniqueTexts(Without(s, gone))
  {
    if s != [] {
      var t := s[1..];
      UniqueSplit(s);
      WithoutUnique(t, gone);
      if s[0] !in gone {
        assert Without(s, gone) == [s[0]] + Without(t, gone);
        UniqueCons(s[0], Without(t, gone));
      }
    }
  }

  /** The collection after the deletions of an update. */
  function Capped(s: seq<SearchEntry>): (r: seq<SearchEntry>)
    ensures |r| <= |s|
    ensures forall e :: e in r ==> e in s
    ensures |s| <= Cap ==> r == s
  {
    WithoutNone(s);
    Without(s, Doomed(s))
  }

  lemma UniqueTextsNoDup(s: seq<SearchEntry>)
    requires UniqueTexts(s)
    ensures NoDup(s)
  {
    forall i, j | 0 <= i < j < |s|
      ensures s[i] != s[j]
    {
      assert s[i].searchText != s[j].searchText;
    }
  }

  /** Every entry ranked among the first 10000 survives the deletions. */
  lemma CappedKeepsTop(s: seq<SearchEntry>, i: nat)
    requires UniqueTexts(s)
    requires i < Min(Cap, |s|)
    ensures Ranked(s)[i] in Capped(s)
  {
    var ranked, cut, d := Ranked(s), Min(Cap, |s|), Doomed(s);
    UniqueTextsNoDup(s);
    NoDupPermutation(s, ranked);
    assert ranked[i] in multiset(s);
    assert ranked[i] !in d by {
      forall j | 0 <= j < |d|
        ensures d[j] != ranked[i]
      {
        assert d[j] == ranked[cut + j];
        assert i < cut + j;
      }
    }
  }

  /** What survives the deletions lies among the first 10000 of the ranking. */
  lemma CappedWithinTop(s: seq<SearchEntry>, i: nat)
    requires i < |Capped(s)|
    ensures Capped(s)[i] in Ranked(s)[..Min(Cap, |s|)]
  {
    var ranked, cut, r := Ranked(s), Min(Cap, |s|), Capped(s);
    assert r[i] in s;
    assert r[i] in multiset(ranked);
    var k :| 0 <= k < |ranked| && ranked[k] == r[i];
    assert ranked[..cut][k] == r[i];
  }

  /** After the deletions at most 10000 entries remain and the texts stay
      unique. */
  lemma CappedBound(s: seq<SearchEntry>)
    requires UniqueTexts(s)
    ensures |Capped(s)| <= Cap
    ensures UniqueTexts(Capped(s))
  {
    var r := Capped(s);
    WithoutUnique(s, Doomed(s));
    UniqueTextsNoDup(s);
    WithoutNoDup(s, Doomed(s));
    forall i | 0 <= i < |r|
      ensures r[i] in Ranked(s)[..Min(Cap, |s|)]
    {
      CappedWithinTop(s, i);
    }
    NoDupWithin(r, Ranked(s)[..Min(Cap, |s|)]);
  }

  // ---------------------------------------------------------------------------
  // Update

  /** The collection after `updateSearchDb(text)`. */
  function AfterSearch(s: seq<SearchEntry>, text: string, now: Time): (r: seq<SearchEntry>)
    ensures IsBlank(text) ==> r == s
    ensures |r| <= |s| + 1
  {
    if IsBlank(text) then s else Capped(Tallied(s, Normalize(text), now))
  }

  /** An update keeps the texts unique and, unless it was a no-op for blank
      text, leaves at most 10000 entries. */
  lemma AfterSearchInvariant(s: seq<SearchEntry>, text: string, now: Time)
    requires UniqueTexts(s)
    ensures UniqueTexts(AfterSearch(s, text, now))
    ensures !IsBlank(text) ==> |AfterSearch(s, text, now)| <= Cap
  {
    if !IsBlank(text) {
      TallyUnique(s, Normalize(text), now);
      CappedBound(Tallied(s, Normalize(text), now));
    }
  }

  /** `updateSearchDb`: tally the normalised text, then delete every entry
      ranked beyond the first 10000. */
  method UpdateSearchDb(db: Store, text: string, now: Time)
    modifies db`searches
    ensures db.searches == AfterSearch(old(db.searches), text, now)
  {
    if IsBlank(text) {
      return;
    }
    Tally(db, ToLower(Trim(text)), now);
    DeleteOverflow(db);
  }

  /** `findOne({searchText})`, then `count += 1` and `save()`, or `create`. */
  method Tally(db: Store, key: string, now: Time)
    modifies db`searches
    ensures db.searches == Tallied(old(db.searches), key, now)
  {
    var s := db.searches;
    var i := 0;
    while i < |s| && s[i].searchText != key
      invariant 0 <= i <= |s|
      invariant forall j :: 0 <= j < i ==> s[j].searchText != key
    {
      i := i + 1;
    }
    TalliedAt(s, key, now, i);
    if i < |s| {
      var entry := s[i];
      entry := entry.(count := entry.count + 1, updatedAt := now);
      db.searches := s[i := entry];
    } else {
      db.searches := s + [SearchEntry(key, 1, now, now)];
    }
  }

  /** The ranked `find().skip(10000)` and one `deleteOne` per entry found. */
  method DeleteOverflow(db: Store)
    modifies db`searches
    ensures db.searches == Capped(old(db.searches))
  {
    var tallied := db.searches;
    var doomed := Doomed(tallied);
    WithoutNone(tallied);
    assert doomed[..0] == [];
    for k := 0 to |doomed|
      invariant db.searches == Without(tallied, doomed[..k])
    {
      WithoutNext(tallied, doomed, k);
      db.searches := Without(db.searches, [doomed[k]]);
    }
    assert doomed[..|doomed|] == doomed;
  }

  /** Deleting one more listed entry extends the deleted prefix by one. */
  lemma WithoutNext(s: seq<SearchEntry>, gone: seq<SearchEntry>, k: nat)
    requires k < |gone|
    ensures Without(Without(s, gone[..k]), [gone[k]]) == Without(s, gone[..k + 1])
  {
    WithoutStep(s, gone[..k], gone[k]);
    assert gone[..k] + [gone[k]] == gone[..k + 1];
  }

  lemma {:induction false} WithoutNone(s: seq<SearchEntry>)
    ensures Without(s, []) == s
  {
    if s != [] {
      WithoutNone(s[1..]);
    }
  }

  // ---------------------------------------------------------------------------
  // Top searches

  /** `Search.find().limit(+limit)`: the first `limit` entries in natural
      order; a missing or zero limit lists them all. */
  function TopSearches(s: seq<SearchEntry>, limit: Option<nat>): (r: seq<SearchEntry>)
    ensures limit.Some? && limit.value > 0 ==> |r| == Min(limit.value, |s|)
    ensures limit.None? || limit.value == 0 ==> |r| == |s|
    ensures r == s[..|r|]
  {
    if limit.None? || limit.value == 0 then s else s[..Min(limit.value, |s|)]
  }

  /** The listing is not ranked: with one entry searched once and a later
      one searched five times, the top-1 list holds the first. */
  lemma TopSearchesUnranked()
    ensures var s := [SearchEntry("a", 1, 0, 0), SearchEntry("b", 5, 0, 0)];
            TopSearches(s, Some(1)) == [s[0]] && s[1].count > s[0].count
  {
  }

  /** The ranked listing: the first `limit` entries by (count, updatedAt)
      descending. */
  function RankedTopSearches(s: seq<SearchEntry>, limit: Option<nat>): (r: seq<SearchEntry>)
    ensures limit.Some? && limit.value > 0 ==> |r| == Min(limit.value, |s|)
    ensures limit.None? || limit.value == 0 ==> |r| == |s|
    ensures SortedBy(r, RankLe)
    ensures multiset(r) <= multiset(s)
  {
    var ranked := Ranked(s);
    var r := TopSearches(ranked, limit);
    PrefixSortedBy(ranked, RankLe, |r|);
    r
  }

  /** Every entry left out of the ranked listing ranks at or below every
      entry in it. */
  lemma RankedTopIsTop(s: seq<SearchEntry>, limit: Option<nat>, i: nat, j: nat)
    requires UniqueTexts(s)
    requires i < |RankedTopSearches(s, limit)|
    requires j < |s| && s[j] !in RankedTopSearches(s, limit)
    ensures RankLe(RankedTopSearches(s, limit)[i], s[j])
  {
    var ranked, r := Ranked(s), RankedTopSearches(s, limit);
    assert r == ranked[..|r|];
    assert s[j] in multiset(ranked);
    var k :| 0 <= k < |ranked| && ranked[k] == s[j];
  }
}
