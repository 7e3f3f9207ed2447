/**
 * The collector (fetch-news.js): normalise each category's upstream
 * articles, concatenate the categories, sort with the comparator
 * `Date(b) - Date(a)` (modelled by its corrected order, undated records last
 * and the dated ones newest first), and index the result by calendar day.
 *
 * The network calls are not modelled: what each category's request
 * produced is the parameter `fetch`, and the `Date` parsing done by the
 * sort comparator is the parameter `parse` (None where JavaScript gets NaN).
 */
module Collector {
  import opened Records

  // ---------------------------------------------------------------------
  // Upstream articles and normalize
  // ---------------------------------------------------------------------

  /** The `source` object of an upstream article. */
  datatype RawSource = RawSource(name: Option<string>)

  /** One upstream article; every field may be missing. */
  datatype RawArticle = RawArticle(
    title: Option<string>,
    url: Option<string>,
    source: Option<RawSource>,
    description: Option<string>,
    publishedAt: Option<string>)

  /** JavaScript truthiness of an optional string: present and non-empty. */
  predicate Truthy(o: Option<string>) { o.Some? && o.value != "" }

  /** `x || ""` on an optional string. */
  function OrEmpty(o: Option<string>): (r: string)
    ensures Truthy(o) ==> r == o.value
    ensures !Truthy(o) ==> r == ""
  {
    if Truthy(o) then o.value else ""
  }

  /** The filter of normalize: `a && a.title && a.url`. */
  predicate Keep(a: Option<RawArticle>)
  {
    a.Some? && Truthy(a.value.title) && Truthy(a.value.url)
  }

  /** `iso.slice(0, 10)`: the first ten characters, or all of a shorter string. */
  function Slice10(iso: string): (r: string)
    ensures r <= iso
    ensures |iso| <= 10 ==> r == iso
    ensures |iso| >= 10 ==> |r| == 10
  {
    if |iso| <= 10 then iso else iso[..10]
  }

  /** The record normalize builds from one kept article. */
  function ToRecord(a: RawArticle, categoria: string): (n: NewsRecord)
    requires Truthy(a.title) && Truthy(a.url)
    ensures n.categoria == categoria
    ensures n.titolo == a.title.value && n.titolo != ""
    ensures n.url == a.url.value && n.url != ""
    ensures a.source.None? ==> n.fonte == ""
    ensures a.source.Some? ==> n.fonte == OrEmpty(a.source.value.name)
    ensures n.descrizione == OrEmpty(a.description)
    ensures n.pubblicato == OrEmpty(a.publishedAt)
    ensures n.data_articolo <= n.pubblicato && |n.data_articolo| <= 10
    ensures |n.pubblicato| >= 10 ==> |n.data_articolo| == 10
    ensures |n.pubblicato| < 10 ==> n.data_articolo == n.pubblicato
    ensures n.data_articolo == "" <==> n.pubblicato == ""
  {
    var iso := OrEmpty(a.publishedAt);
    NewsRecord(
      categoria := categoria,
      titolo := a.title.value,
      fonte := if a.source.Some? then OrEmpty(a.source.value.name) else "",
      url := a.url.value,
      descrizione := OrEmpty(a.description),
      pubblicato := iso,
      data_articolo := if iso != "" then Slice10(iso) else "")
  }

  /** normalize on an array of articles: keep, then map, in order. */
  function NormalizeList(s: seq<Option<RawArticle>>, categoria: string): (r: seq<NewsRecord>)
    ensures |r| <= |s|
    ensures forall n :: n in r ==> n.titolo != "" && n.url != "" && n.categoria == categoria
  {
    if s == [] then []
    else
      (if Keep(s[0]) then [ToRecord(s[0].value, categoria)] else []) + NormalizeList(s[1..], categoria)
  }

  /** normalize: a missing `articles` array counts as empty. */
  function Normalize(articles: Option<seq<Option<RawArticle>>>, categoria: string): (r: seq<NewsRecord>)
    ensures articles.None? ==> r == []
    ensures articles.Some? ==> |r| <= |articles.value|
    ensures forall n :: n in r ==> n.titolo != "" && n.url != "" && n.categoria == categoria
  {
    NormalizeList(if articles.Some? then articles.value else [], categoria)
  }

  /** normalize keeps the input order: it works article by article. */
  lemma {:induction false} NormalizeConcat(a: seq<Option<RawArticle>>, b: seq<Option<RawArticle>>, categoria: string)
    ensures NormalizeList(a + b, categoria) == NormalizeList(a, categoria) + NormalizeList(b, categoria)
  {
    if a != [] {
      assert (a + b)[1..] == a[1..] + b;
      NormalizeConcat(a[1..], b, categoria);
    } else {
      assert a + b == b;
    }
  }

  /** Exactly the kept articles reach the output: each output record is built
      from some kept input article, and each kept article yields a record. */
  lemma {:induction false} NormalizeMembers(s: seq<Option<RawArticle>>, categoria: string, n: NewsRecord)
    ensures n in NormalizeList(s, categoria) <==>
      exists i :: 0 <= i < |s| && Keep(s[i]) && n == ToRecord(s[i].value, categoria)
  {
    if s != [] {
      NormalizeMembers(s[1..], categoria, n);
      if exists i :: 0 <= i < |s| && Keep(s[i]) && n == ToRecord(s[i].value, categoria) {
        var i :| 0 <= i < |s| && Keep(s[i]) && n == ToRecord(s[i].value, categoria);
        if i > 0 {
          assert s[1..][i - 1] == s[i];
        }
      }
      if exists i :: 0 <= i < |s[1..]| && Keep(s[1..][i]) && n == ToRecord(s[1..][i].value, categoria) {
        var i :| 0 <= i < |s[1..]| && Keep(s[1..][i]) && n == ToRecord(s[1..][i].value, categoria);
        assert s[i + 1] == s[1..][i];
      }
    }
  }

  /** Articles that are null or lack a title or url are dropped: an input
      made only of such articles normalises to nothing. */
  lemma {:induction false} NormalizeDropsIncomplete(s: seq<Option<RawArticle>>, categoria: string)
    requires forall i :: 0 <= i < |s| ==> !Keep(s[i])
    ensures NormalizeList(s, categoria) == []
  {
    if s != [] {
      NormalizeDropsIncomplete(s[1..], categoria);
    }
  }

  // ---------------------------------------------------------------------
  // Merging the categories
  // ---------------------------------------------------------------------

  /** What one category's request produced: an error (network, HTTP status,
      bad JSON), or a response whose `articles` field may be missing. */
  datatype FetchOutcome = Failed | Fetched(articles: Option<seq<Option<RawArticle>>>)

  const CATEGORIES: seq<string> :=
    ["technology", "business", "science", "health", "sports", "entertainment", "general"]

  /** What one category adds to the merged list: nothing when its request failed. */
  function Contribution(o: FetchOutcome, categoria: string): (r: seq<NewsRecord>)
    ensures o.Failed? ==> r == []
    ensures forall n :: n in r ==> n.categoria == categoria
  {
    if o.Failed? then [] else Normalize(o.articles, categoria)
  }

  /** The concatenation, in category order, of every category's contribution. */
  function Merged(cats: seq<string>, fetch: string -> FetchOutcome): (r: seq<NewsRecord>)
    ensures forall n :: n in r ==> n.categoria in cats
  {
    if cats == [] then []
    else Merged(cats[..|cats| - 1], fetch) + Contribution(fetch(cats[|cats| - 1]), cats[|cats| - 1])
  }

  lemma MergedSnoc(cats: seq<string>, c: string, fetch: string -> FetchOutcome)
    ensures Merged(cats + [c], fetch) == Merged(cats, fetch) + Contribution(fetch(c), c)
  {
    assert (cats + [c])[..|cats + [c]| - 1] == cats;
  }

  /** The records of one category, in order. */
  function OfCategory(s: seq<NewsRecord>, categoria: string): (r: seq<NewsRecord>)
    ensures |r| <= |s|
  {
    if s == [] then []
    else OfCategory(s[..|s| - 1], categoria) + (if s[|s| - 1].categoria == categoria then [s[|s| - 1]] else [])
  }

  lemma {:induction false} OfCategoryConcat(a: seq<NewsRecord>, b: seq<NewsRecord>, categoria: string)
    ensures OfCategory(a + b, categoria) == OfCategory(a, categoria) + OfCategory(b, categoria)
    decreases |b|
  {
    if b == [] {
      assert a + b == a;
    } else {
      assert (a + b)[..|a + b| - 1] == a + b[..|b| - 1];
      OfCategoryConcat(a, b[..|b| - 1], categoria);
    }
  }

  lemma {:induction false} OfCategoryAll(s: seq<NewsRecord>, categoria: string)
    requires forall n :: n in s ==> n.categoria == categoria
    ensures OfCategory(s, categoria) == s
  {
    if s != [] {
      OfCategoryAll(s[..|s| - 1], categoria);
    }
  }

  lemma {:induction false} OfCategoryNone(s: seq<NewsRecord>, categoria: string)
    requires forall n :: n in s ==> n.categoria != categoria
    ensures OfCategory(s, categoria) == []
  {
    if s != [] {
      OfCategoryNone(s[..|s| - 1], categoria);
    }
  }

  /** A category's records in the merged list are exactly what its own
      request contributed: a failed category contributes nothing, and it does
      not cost any other category its records. */
  lemma {:induction false} MergedByCategory(cats: seq<string>, fetch: string -> FetchOutcome, c: string)
    requires forall i, j :: 0 <= i < j < |cats| ==> cats[i] != cats[j]
    ensures c in cats ==> OfCategory(Merged(cats, fetch), c) == Contribution(fetch(c), c)
    ensures c !in cats ==> OfCategory(Merged(cats, fetch), c) == []
  {
    if cats != [] {
      var init, last := cats[..|cats| - 1], cats[|cats| - 1];
      MergedByCategory(init, fetch, c);
      var part := Contribution(fetch(last), last);
      OfCategoryConcat(Merged(init, fetch), part, c);
      if c == last {
        OfCategoryAll(part, c);
        assert c !in init;
      } else {
        OfCategoryNone(part, c);
        assert c in cats ==> c in init;
      }
    }
  }

  /** Every merged record belongs to one of the categories, and to one whose
      request succeeded. */
  lemma {:induction false} MergedFromSucceeded(cats: seq<string>, fetch: string -> FetchOutcome, n: NewsRecord)
    requires n in Merged(cats, fetch)
    ensures n.categoria in cats && fetch(n.categoria).Fetched?
  {
    var init, last := cats[..|cats| - 1], cats[|cats| - 1];
    if n in Merged(init, fetch) {
      MergedFromSucceeded(init, fetch, n);
    }
  }

  /** The loop over CATEGORIES: a failed request is skipped and the loop
      goes on with the next category. */
  method MergeCategories(fetch: string -> FetchOutcome) returns (tutte: seq<NewsRecord>)
    ensures tutte == Merged(CATEGORIES, fetch)
    ensures forall n :: n in tutte ==> n.categoria in CATEGORIES && fetch(n.categoria).Fetched?
  {
    tutte := [];
    for i := 0 to |CATEGORIES|
      invariant tutte == Merged(CATEGORIES[..i], fetch)
    {
      var cat := CATEGORIES[i];
      MergedSnoc(CATEGORIES[..i], cat, fetch);
      assert CATEGORIES[..i + 1] == CATEGORIES[..i] + [cat];
      var outcome := fetch(cat);
      if outcome.Fetched? {
        var items := Normalize(outcome.articles, cat);
        tutte := tutte + items;
      }
    }
    assert CATEGORIES[..|CATEGORIES|] == CATEGORIES;
    forall n | n in tutte ensures n.categoria in CATEGORIES && fetch(n.categoria).Fetched? {
      MergedFromSucceeded(CATEGORIES, fetch, n);
    }
  }

  // ---------------------------------------------------------------------
  // Sorting by publication date
  // ---------------------------------------------------------------------

  /** `x` may come before `y` under the comparator `Date(b) - Date(a)`.
      Undated records (NaN) are put after every dated one. */
  predicate Precedes(x: NewsRecord, y: NewsRecord, parse: string -> Option<int>)
  {
    parse(y.pubblicato).None? ||
    (parse(x.pubblicato).Some? && parse(x.pubblicato).value >= parse(y.pubblicato).value)
  }

  predicate DateSorted(s: seq<NewsRecord>, parse: string -> Option<int>)
  {
    forall i, j :: 0 <= i < j < |s| ==> Precedes(s[i], s[j], parse)
  }

  /** Newest first among the records whose timestamp parses. */
  predicate NewestFirst(s: seq<NewsRecord>, parse: string -> Option<int>)
  {
    forall i, j :: 0 <= i < j < |s| && parse(s[i].pubblicato).Some? && parse(s[j].pubblicato).Some? ==>
      parse(s[i].pubblicato).value >= parse(s[j].pubblicato).value
  }

  /** Puts `x` in front of the first record it may precede. */
  function Insert(s: seq<NewsRecord>, x: NewsRecord, parse: string -> Option<int>): (r: seq<NewsRecord>)
    requires DateSorted(s, parse)
    ensures DateSorted(r, parse)
    ensures multiset(r) == multiset(s) + multiset{x}
  {
    if s == [] || Precedes(x, s[0], parse) then
      assert forall j :: 0 < j < |s| + 1 ==> ([x] + s)[j] == s[j - 1];
      [x] + s
    else
      var rest := Insert(s[1..], x, parse);
      assert s == [s[0]] + s[1..];
      assert forall j :: 0 <= j < |rest| ==> Precedes(s[0], rest[j], parse) by {
        forall j | 0 <= j < |rest| ensures Precedes(s[0], rest[j], parse) {
          assert rest[j] in multiset(rest);
          if rest[j] != x {
            assert rest[j] in multiset(s[1..]);
            var k :| 0 <= k < |s[1..]| && s[1..][k] == rest[j];
            assert s[k + 1] == rest[j];
          }
        }
      }
      [s[0]] + rest
  }

  /** The corrected order of `tutte.sort(...)`: a permutation of the input,
      undated records last and the dated ones newest first. */
  function SortByDate(s: seq<NewsRecord>, parse: string -> Option<int>): (r: seq<NewsRecord>)
    ensures multiset(r) == multiset(s)
    ensures DateSorted(r, parse)
    ensures NewestFirst(r, parse)
  {
    if s == [] then []
    else
      assert s == [s[0]] + s[1..];
      Insert(SortByDate(s[1..], parse), s[0], parse)
  }

  /** The comparator as written, `new Date(b.pubblicato) - new Date(a.pubblicato)`.
      A timestamp that does not parse makes the difference NaN, which
      Array.prototype.sort reads as 0: the two records then count as equal. */
  function JsCompare(a: NewsRecord, b: NewsRecord, parse: string -> Option<int>): (d: int)
    ensures parse(a.pubblicato).None? || parse(b.pubblicato).None? ==> d == 0
    ensures d > 0 <==>
      parse(a.pubblicato).Some? && parse(b.pubblicato).Some? && parse(b.pubblicato).value > parse(a.pubblicato).value
  {
    if parse(a.pubblicato).Some? && parse(b.pubblicato).Some? then
      parse(b.pubblicato).value - parse(a.pubblicato).value
    else 0
  }

  /** No neighbour is out of order under the comparator as written: the list
      is one non-descending run, which a sort that merges runs (the TimSort
      of V8) hands back as it is. */
  predicate ComparatorRun(s: seq<NewsRecord>, parse: string -> Option<int>)
  {
    forall i :: 0 <= i < |s| - 1 ==> JsCompare(s[i], s[i + 1], parse) <= 0
  }

  /** With an undated record between them, an older record may stay in front
      of a newer one: both neighbouring comparisons are NaN, so the list is
      already a run under the comparator as written, yet not newest first. */
  lemma UndatedKeepsOlderFirst(parse: string -> Option<int>)
    requires parse("2024-01-01T08:00:00Z").Some? && parse("2024-01-02T08:00:00Z").Some?
    requires parse("2024-01-01T08:00:00Z").value < parse("2024-01-02T08:00:00Z").value
    requires parse("").None?
    ensures var older := NewsRecord("general", "A", "", "https://a.example/", "", "2024-01-01T08:00:00Z", "2024-01-01");
            var undated := NewsRecord("general", "B", "", "https://b.example/", "", "", "");
            var newer := NewsRecord("general", "C", "", "https://c.example/", "", "2024-01-02T08:00:00Z", "2024-01-02");
            ComparatorRun([older, undated, newer], parse) && !NewestFirst([older, undated, newer], parse)
  {
    var older := NewsRecord("general", "A", "", "https://a.example/", "", "2024-01-01T08:00:00Z", "2024-01-01");
    var undated := NewsRecord("general", "B", "", "https://b.example/", "", "", "");
    var newer := NewsRecord("general", "C", "", "https://c.example/", "", "2024-01-02T08:00:00Z", "2024-01-02");
    var s := [older, undated, newer];
    assert JsCompare(s[0], s[1], parse) == 0 && JsCompare(s[1], s[2], parse) == 0;
    assert parse(s[0].pubblicato).value < parse(s[2].pubblicato).value;
  }

  /** When every timestamp parses, the comparator is consistent and
      SortByDate's order is sorted under it: no pair is out of order. */
  lemma SortAllDatedAgrees(s: seq<NewsRecord>, parse: string -> Option<int>)
    requires forall n :: n in s ==> parse(n.pubblicato).Some?
    ensures var r := SortByDate(s, parse);
            forall i, j :: 0 <= i < j < |r| ==> JsCompare(r[i], r[j], parse) <= 0
  {
    var r := SortByDate(s, parse);
    forall i, j | 0 <= i < j < |r| ensures JsCompare(r[i], r[j], parse) <= 0 {
      assert r[i] in multiset(r) && r[j] in multiset(r);
      assert r[i] in s && r[j] in s;
    }
  }

  // ---------------------------------------------------------------------
  // The per_data index
  // ---------------------------------------------------------------------

  /** The records of `s` whose bucket is `k`, in the order of `s`. */
  function Bucket(s: seq<NewsRecord>, k: string): (r: seq<NewsRecord>)
    ensures |r| <= |s|
  {
    if s == [] then []
    else Bucket(s[..|s| - 1], k) + (if DayKey(s[|s| - 1]) == k then [s[|s| - 1]] else [])
  }

  /** The bucket names that occur in `s`. */
  function DayKeys(s: seq<NewsRecord>): set<string>
  {
    set n | n in s :: DayKey(n)
  }

  /** The loop that fills `per_data`: one bucket per day key occurring in
      `tutte`, holding that key's records in `tutte` order. */
  method IndexByDay(tutte: seq<NewsRecord>) returns (per_data: map<string, seq<NewsRecord>>)
    ensures per_data.Keys == DayKeys(tutte)
    ensures forall k :: k in per_data ==> per_data[k] == Bucket(tutte, k)
  {
    per_data := map[];
    for i := 0 to |tutte|
      invariant per_data.Keys == DayKeys(tutte[..i])
      invariant forall k :: k in per_data ==> per_data[k] == Bucket(tutte[..i], k)
    {
      var key := DayKey(tutte[i]);
      var bucket := if key in per_data then per_data[key] else [];
      IndexStep(per_data, tutte[..i], tutte[i]);
      per_data := per_data[key := bucket + [tutte[i]]];
      assert tutte[..i + 1] == tutte[..i] + [tutte[i]];
    }
    assert tutte[..|tutte|] == tutte;
  }

  /** One step of the loop keeps the index exact. */
  lemma IndexStep(m: map<string, seq<NewsRecord>>, s: seq<NewsRecord>, n: NewsRecord)
    requires m.Keys == DayKeys(s)
    requires forall k :: k in m ==> m[k] == Bucket(s, k)
    ensures var key := DayKey(n);
            var m' := m[key := (if key in m then m[key] else []) + [n]];
            m'.Keys == DayKeys(s + [n]) &&
            forall k :: k in m' ==> m'[k] == Bucket(s + [n], k)
  {
    var key := DayKey(n);
    assert (s + [n])[..|s + [n]| - 1] == s;
    assert DayKeys(s + [n]) == DayKeys(s) + {key};
    if key !in m {
      BucketAbsent(s, key);
    }
  }

  lemma {:induction false} BucketAbsent(s: seq<NewsRecord>, k: string)
    requires k !in DayKeys(s)
    ensures Bucket(s, k) == []
  {
    if s != [] {
      assert DayKeys(s[..|s| - 1]) <= DayKeys(s);
      BucketAbsent(s[..|s| - 1], k);
    }
  }

  /** Buckets keep the order of the sorted list: the bucket of a
      concatenation is the concatenation of the buckets. */
  lemma {:induction false} BucketConcat(a: seq<NewsRecord>, b: seq<NewsRecord>, k: string)
    ensures Bucket(a + b, k) == Bucket(a, k) + Bucket(b, k)
    decreases |b|
  {
    if b == [] {
      assert a + b == a;
    } else {
      assert (a + b)[..|a + b| - 1] == a + b[..|b| - 1];
      BucketConcat(a, b[..|b| - 1], k);
    }
  }

  /** A record is in bucket `k` exactly when it is in the list and its day
      key is `k`; so each record is in one bucket, its own. */
  lemma {:induction false} BucketMembers(s: seq<NewsRecord>, k: string, n: NewsRecord)
    ensures n in Bucket(s, k) <==> n in s && DayKey(n) == k
  {
    if s != [] {
      BucketMembers(s[..|s| - 1], k, n);
      assert s == s[..|s| - 1] + [s[|s| - 1]];
    }
  }

  /** Every occurrence of a record lands in its own bucket: none is lost or
      duplicated. */
  lemma {:induction false} BucketKeepsOccurrences(s: seq<NewsRecord>, n: NewsRecord)
    ensures multiset(Bucket(s, DayKey(n)))[n] == multiset(s)[n]
  {
    if s != [] {
      BucketKeepsOccurrences(s[..|s| - 1], n);
      assert s == s[..|s| - 1] + [s[|s| - 1]];
    }
  }

  /** The bucket names in first-occurrence order: the order in which each
      first occurs in the list. */
  function KeyOrder(s: seq<NewsRecord>): (r: seq<string>)
    ensures forall i, j :: 0 <= i < j < |r| ==> r[i] != r[j]
    ensures forall k :: k in r <==> k in DayKeys(s)
  {
    if s == [] then []
    else
      var init := KeyOrder(s[..|s| - 1]);
      var k := DayKey(s[|s| - 1]);
      assert s == s[..|s| - 1] + [s[|s| - 1]];
      assert DayKeys(s) == DayKeys(s[..|s| - 1]) + {k};
      if k in init then init else init + [k]
  }

  /** The total size of the buckets named in `keys`. */
  function BucketSizes(keys: seq<string>, s: seq<NewsRecord>): nat
  {
    if keys == [] then 0 else |Bucket(s, keys[0])| + BucketSizes(keys[1..], s)
  }

  lemma {:induction false} BucketSizesSnoc(keys: seq<string>, s: seq<NewsRecord>, n: NewsRecord)
    requires forall i, j :: 0 <= i < j < |keys| ==> keys[i] != keys[j]
    ensures BucketSizes(keys, s + [n]) == BucketSizes(keys, s) + (if DayKey(n) in keys then 1 else 0)
  {
    if keys != [] {
      BucketSizesSnoc(keys[1..], s, n);
      assert (s + [n])[..|s + [n]| - 1] == s;
      assert DayKey(n) in keys <==> DayKey(n) == keys[0] || DayKey(n) in keys[1..];
    }
  }

  lemma {:induction false} BucketSizesAppend(keys: seq<string>, k: string, s: seq<NewsRecord>)
    ensures BucketSizes(keys + [k], s) == BucketSizes(keys, s) + |Bucket(s, k)|
  {
    if keys != [] {
      assert (keys + [k])[1..] == keys[1..] + [k];
      BucketSizesAppend(keys[1..], k, s);
    }
  }

  /** The buckets together hold exactly as many records as the list. */
  lemma {:induction false} BucketSizesSum(s: seq<NewsRecord>)
    ensures BucketSizes(KeyOrder(s), s) == |s|
  {
    if s != [] {
      var init, n := s[..|s| - 1], s[|s| - 1];
      assert s == init + [n];
      var keys := KeyOrder(init);
      BucketSizesSum(init);
      BucketSizesSnoc(keys, init, n);
      if DayKey(n) !in keys {
        BucketSizesAppend(keys, DayKey(n), s);
        BucketAbsent(init, DayKey(n));
      }
    }
  }

  // ---------------------------------------------------------------------
  // run
  // ---------------------------------------------------------------------

  /** The document written to news-data.json. */
  datatype Artifact = Artifact(
    aggiornato_il: string,
    totale: int,
    notizie: seq<NewsRecord>,
    per_data: map<string, seq<NewsRecord>>)

  /** run: merge, sort, index and assemble. `now` is the clock reading that
      becomes `aggiornato_il`. */
  method Run(fetch: string -> FetchOutcome, parse: string -> Option<int>, now: string) returns (out: Artifact)
    ensures out.aggiornato_il == now
    ensures out.totale == |out.notizie|
    ensures multiset(out.notizie) == multiset(Merged(CATEGORIES, fetch))
    ensures out.notizie == SortByDate(Merged(CATEGORIES, fetch), parse)
    ensures NewestFirst(out.notizie, parse)
    ensures out.per_data.Keys == DayKeys(out.notizie)
    ensures forall k :: k in out.per_data ==> out.per_data[k] == Bucket(out.notizie, k)
  {
    var tutte := MergeCategories(fetch);
    tutte := SortByDate(tutte, parse);
    var per_data := IndexByDay(tutte);
    out := Artifact(now, |tutte|, tutte, per_data);
  }
}
