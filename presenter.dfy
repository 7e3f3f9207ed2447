/**
 * The presenter (app.js): the page state `allNews`, `newsByDate` and
 * `currentDateKey`, the snapshot transition `applyData`, rendering one day's
 * bucket, the search, the date picker and the load with its offline
 * fallback.
 *
 * The DOM is not modelled: what a render puts on the page is the field
 * `view`, either a list of cards or the text of one message. The browser's
 * local storage is the single slot `stored`, and the network response is
 * the parameter of LoadNews.
 */
module Presenter {
  import opened Records
  import opened Text
  import Collector

  /** news-data.json as applyData reads it: `notizie` when it is an array,
      `per_data` when it is present. */
  datatype Snapshot = Snapshot(
    notizie: Option<seq<NewsRecord>>,
    per_data: Option<map<string, seq<NewsRecord>>>)

  /** `Array.isArray(data.notizie) ? data.notizie : []` */
  function NewsOf(data: Snapshot): (r: seq<NewsRecord>)
    ensures data.notizie.None? ==> r == []
    ensures data.notizie.Some? ==> r == data.notizie.value
  {
    if data.notizie.Some? then data.notizie.value else []
  }

  /** `data.per_data || {}` */
  function IndexOf(data: Snapshot): (r: map<string, seq<NewsRecord>>)
    ensures data.per_data.None? ==> r == map[]
    ensures data.per_data.Some? ==> r == data.per_data.value
  {
    if data.per_data.Some? then data.per_data.value else map[]
  }

  // ---------------------------------------------------------------------
  // What a render shows
  // ---------------------------------------------------------------------

  /** One news card: the text inserted in its title, meta line, tag and
      description, and the value of its link's href attribute. The formatted
      publication date is not part of the model. */
  datatype Card = Card(title: string, source: string, tag: string, description: string, href: string)

  /** The content of the news list: untouched, a list of cards, or one
      message (the text handed to renderMessage). */
  datatype View = Blank | Cards(cards: seq<Card>) | Message(text: string)

  /** Days named in the search message; it is only ever shown, never used to filter. */
  const RECENT_DAYS: nat := 60

  const NO_DATA_TEXT: string := "Nessun dato disponibile. Connettiti a internet e riapri l\U{2019}app."

  /** The empty-state message of a day. */
  function NoNewsText(dateKey: string): string
  {
    "Nessuna notizia per " + FormatDateKey(dateKey) + "."
  }

  predicate NoMarkup(s: string)
  {
    forall k :: 0 <= k < |s| ==> s[k] != '<' && s[k] != '>' && s[k] != '"' && s[k] != '\''
  }

  /** No part of the card can open a tag or leave its attribute. */
  predicate SafeCard(c: Card)
  {
    NoMarkup(c.title) && NoMarkup(c.source) && NoMarkup(c.tag) && NoMarkup(c.description) && NoMarkup(c.href)
  }

  /** The card as app.js writes it: every text escaped, the url inserted as it is. */
  function CardAsWritten(n: NewsRecord): (c: Card)
    ensures NoMarkup(c.title) && NoMarkup(c.source) && NoMarkup(c.tag) && NoMarkup(c.description)
    ensures UnescapeHtml(c.title) == n.titolo && UnescapeHtml(c.description) == n.descrizione
    ensures c.href == n.url
  {
    UnescapeEscape(n.titolo);
    UnescapeEscape(n.descrizione);
    Card(EscapeHtml(n.titolo), EscapeHtml(n.fonte), EscapeHtml(n.categoria), EscapeHtml(n.descrizione), n.url)
  }

  /** The card with its url escaped as well. */
  function ToCard(n: NewsRecord): (c: Card)
    ensures SafeCard(c)
    ensures UnescapeHtml(c.title) == n.titolo && UnescapeHtml(c.source) == n.fonte
    ensures UnescapeHtml(c.tag) == n.categoria && UnescapeHtml(c.description) == n.descrizione
    ensures UnescapeHtml(c.href) == n.url
  {
    UnescapeEscape(n.titolo);
    UnescapeEscape(n.fonte);
    UnescapeEscape(n.categoria);
    UnescapeEscape(n.descrizione);
    UnescapeEscape(n.url);
    Card(EscapeHtml(n.titolo), EscapeHtml(n.fonte), EscapeHtml(n.categoria), EscapeHtml(n.descrizione),
         EscapeHtml(n.url))
  }

  /** A url holding a double quote closes the href attribute of the card as
      written, so the rest of the url is read as markup. */
  lemma UrlBreaksOutOfHref()
    ensures var n := NewsRecord("general", "T", "", "https://x.example/\"onmouseover=\"f()", "", "", "");
            !SafeCard(CardAsWritten(n)) && SafeCard(ToCard(n))
  {
    var n := NewsRecord("general", "T", "", "https://x.example/\"onmouseover=\"f()", "", "", "");
    assert CardAsWritten(n).href[18] == '"';
  }

  /** The cards of a list, one per record, in list order. */
  function CardsOf(s: seq<NewsRecord>): (r: seq<Card>)
    ensures |r| == |s|
    ensures forall i :: 0 <= i < |s| ==> r[i] == ToCard(s[i])
  {
    seq(|s|, i requires 0 <= i < |s| => ToCard(s[i]))
  }

  /** The loop that appends one card per record to the list. */
  method RenderCards(list: seq<NewsRecord>) returns (cards: seq<Card>)
    ensures |cards| == |list|
    ensures forall i :: 0 <= i < |list| ==> cards[i] == ToCard(list[i]) && SafeCard(cards[i])
  {
    cards := [];
    for i := 0 to |list|
      invariant |cards| == i
      invariant forall j :: 0 <= j < i ==> cards[j] == ToCard(list[j])
    {
      var card := ToCard(list[i]);
      cards := cards + [card];
    }
  }

  /** renderByDate's choice: the bucket's cards in bucket order, or the
      empty-state message when the bucket is missing or empty. */
  function DateView(byDate: map<string, seq<NewsRecord>>, dateKey: string): (v: View)
    ensures v.Message? || v.Cards?
    ensures v.Message? <==> dateKey !in byDate || byDate[dateKey] == []
    ensures v.Message? ==> v.text == NoNewsText(dateKey)
    ensures v.Cards? ==> v.cards == CardsOf(byDate[dateKey]) && v.cards != []
  {
    if dateKey in byDate && byDate[dateKey] != [] then Cards(CardsOf(byDate[dateKey]))
    else Message(NoNewsText(dateKey))
  }

  // ---------------------------------------------------------------------
  // The search
  // ---------------------------------------------------------------------

  /** A record matches the normalised query when one of its four text
      fields contains it after normalisation. */
  function Matches(n: NewsRecord, q: string): (m: bool)
    ensures q == "" ==> m
    ensures m ==> |q| <= |n.titolo| || |q| <= |n.descrizione| || |q| <= |n.fonte| || |q| <= |n.categoria|
  {
    Contains(Norm(n.titolo), q) || Contains(Norm(n.descrizione), q) ||
    Contains(Norm(n.fonte), q) || Contains(Norm(n.categoria), q)
  }

  /** Array.prototype.filter: the elements `keep` accepts, in their order. */
  function Filter<T>(s: seq<T>, keep: T -> bool): (r: seq<T>)
    ensures |r| <= |s|
  {
    if s == [] then [] else (if keep(s[0]) then [s[0]] else []) + Filter(s[1..], keep)
  }

  lemma {:induction false} FilterMembers<T>(s: seq<T>, keep: T -> bool, x: T)
    ensures x in Filter(s, keep) <==> x in s && keep(x)
  {
    if s != [] {
      FilterMembers(s[1..], keep, x);
      assert x in s <==> x == s[0] || x in s[1..];
    }
  }

  lemma {:induction false} FilterConcat<T>(a: seq<T>, b: seq<T>, keep: T -> bool)
    ensures Filter(a + b, keep) == Filter(a, keep) + Filter(b, keep)
  {
    if a != [] {
      assert (a + b)[1..] == a[1..] + b;
      FilterConcat(a[1..], b, keep);
    } else {
      assert a + b == b;
    }
  }

  /** `allNews.filter(...)`: the matching records, in their order. */
  function Hits(news: seq<NewsRecord>, q: string): (r: seq<NewsRecord>)
    ensures |r| <= |news|
  {
    Filter(news, n => Matches(n, q))
  }

  /** The hits are exactly the matching records of the list. */
  lemma HitsMembers(news: seq<NewsRecord>, q: string, n: NewsRecord)
    ensures n in Hits(news, q) <==> n in news && Matches(n, q)
  {
    FilterMembers(news, n => Matches(n, q), n);
  }

  /** The hits keep the list order: filtering a concatenation filters each part. */
  lemma HitsConcat(a: seq<NewsRecord>, b: seq<NewsRecord>, q: string)
    ensures Hits(a + b, q) == Hits(a, q) + Hits(b, q)
  {
    FilterConcat(a, b, n => Matches(n, q));
  }

  /** Whether a record matches never depends on its dates: the search does
      not look at a recent period. */
  lemma HitsIgnoreDates(n: NewsRecord, q: string, pubblicato: string, data_articolo: string)
    ensures Matches(n.(pubblicato := pubblicato, data_articolo := data_articolo), q) == Matches(n, q)
  {
  }

  /** The opening of the no-results message, up to the quoted query. */
  const NO_RESULTS_HEAD: string := "Nessun risultato trovato per \U{201C}"

  /** The close of the no-results message, after the quoted query. */
  function NoResultsTail(): string
  {
    "\U{201D} nel recente periodo (ultimi " + NatToString(RECENT_DAYS) +
    " giorni). Prova una parola diversa o scegli una data dal calendario."
  }

  /** The no-results message as app.js builds it: the query escaped, before
      renderMessage escapes the whole text once more. */
  function NoResultsTextAsWritten(query: string): (r: string)
    ensures r != NoResultsText(query) <==> exists k :: 0 <= k < |query| && IsMarkup(query[k])
  {
    var text := NO_RESULTS_HEAD + EscapeHtml(query) + NoResultsTail();
    if exists k :: 0 <= k < |query| && IsMarkup(query[k]) then
      EscapeGrowsOnMarkup(query);
      text
    else
      EscapePlainText(query);
      text
  }

  /** The no-results message with the query as typed; renderMessage escapes it once. */
  function NoResultsText(query: string): string
  {
    NO_RESULTS_HEAD + query + NoResultsTail()
  }

  /** What a reader sees of a message: renderMessage escapes the text and
      the browser decodes the entities again. */
  function Shown(text: string): string
  {
    UnescapeHtml(EscapeHtml(text))
  }

  /** With the message as written, a query holding any of the five markup
      characters is shown in its escaped form rather than as typed. */
  lemma QueryShownEscaped(query: string)
    requires exists k :: 0 <= k < |query| && IsMarkup(query[k])
    ensures Shown(NoResultsTextAsWritten(query)) == NO_RESULTS_HEAD + EscapeHtml(query) + NoResultsTail()
    ensures Shown(NoResultsTextAsWritten(query)) != Shown(NoResultsText(query))
  {
    UnescapeEscape(NoResultsTextAsWritten(query));
    UnescapeEscape(NoResultsText(query));
    EscapeGrowsOnMarkup(query);
  }

  /** The input that shows it: "Q&A" is shown as "Q&amp;A". */
  lemma QueryAmpersandExample()
    ensures EscapeHtml("Q&A") == "Q&amp;A"
  {
    assert "Q&A" == "Q" + "&A";
    assert "&A" == "&" + "A";
    EscapeConcat("Q", "&A");
    EscapeConcat("&", "A");
  }

  /** The corrected message shows the query exactly as typed, and its markup
      cannot open a tag. */
  lemma NoResultsShowsQuery(query: string)
    ensures Shown(NoResultsText(query)) == NO_RESULTS_HEAD + query + NoResultsTail()
    ensures NoMarkup(EscapeHtml(NoResultsText(query)))
  {
    UnescapeEscape(NoResultsText(query));
  }

  /** searchNews's choice: with a blank query the selected day's view;
      otherwise the hits' cards in list order, or the no-results message
      when nothing matches. */
  function SearchView(all: seq<NewsRecord>, byDate: map<string, seq<NewsRecord>>, current: string, query: string): (v: View)
    ensures Norm(query) == "" ==> v == DateView(byDate, current)
    ensures Norm(query) != "" ==> (v.Message? <==> Hits(all, Norm(query)) == [])
    ensures Norm(query) != "" && v.Message? ==> v.text == NoResultsText(query)
    ensures Norm(query) != "" && v.Cards? ==> v.cards == CardsOf(Hits(all, Norm(query)))
  {
    var q := Norm(query);
    if q == "" then DateView(byDate, current)
    else
      var hits := Hits(all, q);
      if hits == [] then Message(NoResultsText(query)) else Cards(CardsOf(hits))
  }

  // ---------------------------------------------------------------------
  // Date-picker bounds and the latest day
  // ---------------------------------------------------------------------

  /** The keys of the index that are days, i.e. all but the sentinel. */
  function DateKeys(byDate: map<string, seq<NewsRecord>>): set<string>
  {
    byDate.Keys - {SENTINEL}
  }

  ghost predicate IsLeast(k: string, keys: set<string>)
  {
    k in keys && forall x :: x in keys ==> StrLe(k, x)
  }

  ghost predicate IsGreatest(k: string, keys: set<string>)
  {
    k in keys && forall x :: x in keys ==> StrLe(x, k)
  }

  /** There is only one latest day, so the day applyData shows is determined. */
  lemma GreatestUnique(a: string, b: string, keys: set<string>)
    requires IsGreatest(a, keys) && IsGreatest(b, keys)
    ensures a == b
  {
    StrLeAntisymmetric(a, b);
  }

  /** The first and last of the sorted day keys: the smallest and the largest. */
  method DayBounds(keys: set<string>) returns (found: bool, lo: string, hi: string)
    ensures found <==> keys != {}
    ensures found ==> IsLeast(lo, keys) && IsGreatest(hi, keys) && StrLe(lo, hi)
    ensures !found ==> lo == "" && hi == ""
  {
    found, lo, hi := false, "", "";
    var rest := keys;
    while rest != {}
      invariant rest <= keys
      invariant found <==> keys - rest != {}
      invariant found ==> IsLeast(lo, keys - rest) && IsGreatest(hi, keys - rest)
      invariant !found ==> lo == "" && hi == ""
      decreases rest
    {
      var k :| k in rest;
      var seen := keys - rest;
      StrLeReflexive(k);
      if !found {
        found, lo, hi := true, k, k;
        assert seen == {};
        assert keys - (rest - {k}) == {k};
      } else {
        if !StrLe(lo, k) {
          StrLeTotal(lo, k);
          forall x | x in seen ensures StrLe(k, x) { StrLeTransitive(k, lo, x); }
          lo := k;
        }
        if StrLe(hi, k) {
          forall x | x in seen ensures StrLe(x, k) { StrLeTransitive(x, hi, k); }
          hi := k;
        } else {
          StrLeTotal(hi, k);
        }
        assert keys - (rest - {k}) == seen + {k};
      }
      rest := rest - {k};
    }
  }

  // ---------------------------------------------------------------------
  // The page state
  // ---------------------------------------------------------------------

  class Page {
    var allNews: seq<NewsRecord>
    var newsByDate: map<string, seq<NewsRecord>>
    var currentDateKey: string
    /** The `min` and `max` of the date picker. */
    var pickerMin: string
    var pickerMax: string
    /** The local-storage slot "ggn:data". */
    var stored: Option<Snapshot>
    var view: View

    /** A fresh page; `saved` is what local storage holds from earlier visits. */
    constructor(saved: Option<Snapshot>)
      ensures allNews == [] && newsByDate == map[] && currentDateKey == ""
      ensures pickerMin == "" && pickerMax == ""
      ensures stored == saved && view == Blank
    {
      allNews, newsByDate, currentDateKey := [], map[], "";
      pickerMin, pickerMax := "", "";
      stored, view := saved, Blank;
    }

    /** The page shows `data`: its records and index, its latest day selected
        ("" when it has none), and that day's bucket rendered. */
    ghost predicate Shows(data: Snapshot)
      reads this
    {
      allNews == NewsOf(data) && newsByDate == IndexOf(data) &&
      (DateKeys(newsByDate) == {} ==> currentDateKey == "") &&
      (DateKeys(newsByDate) != {} ==> IsGreatest(currentDateKey, DateKeys(newsByDate))) &&
      view == DateView(newsByDate, currentDateKey)
    }

    /** The picker spans the days of the index, least to greatest; with no
        days it keeps the bounds `min0` and `max0` it had. */
    ghost predicate PickerSpansDays(min0: string, max0: string)
      reads this
    {
      (DateKeys(newsByDate) != {} ==>
        IsLeast(pickerMin, DateKeys(newsByDate)) && IsGreatest(pickerMax, DateKeys(newsByDate)) &&
        pickerMin in newsByDate && pickerMax in newsByDate && StrLe(pickerMin, pickerMax)) &&
      (DateKeys(newsByDate) == {} ==> pickerMin == min0 && pickerMax == max0)
    }

    /** renderByDate: select the day and show its bucket or the empty-state message. */
    method RenderByDate(dateKey: string)
      modifies this
      ensures currentDateKey == dateKey
      ensures view == DateView(newsByDate, dateKey)
      ensures allNews == old(allNews) && newsByDate == old(newsByDate)
      ensures pickerMin == old(pickerMin) && pickerMax == old(pickerMax) && stored == old(stored)
    {
      currentDateKey := dateKey;
      var list := if dateKey in newsByDate then newsByDate[dateKey] else [];
      if list == [] {
        view := Message(NoNewsText(dateKey));
      } else {
        var cards := RenderCards(list);
        view := Cards(cards);
      }
    }

    /** applyData: replace the records and the index, bound the picker by
        the smallest and largest day, and show the latest day. */
    method ApplyData(data: Snapshot)
      modifies this
      ensures Shows(data)
      ensures PickerSpansDays(old(pickerMin), old(pickerMax))
      ensures stored == old(stored)
    {
      allNews := NewsOf(data);
      newsByDate := IndexOf(data);
      var found, lo, hi := DayBounds(DateKeys(newsByDate));
      if found {
        pickerMin, pickerMax := lo, hi;
      }
      currentDateKey := if found then hi else "";
      RenderByDate(currentDateKey);
    }

    /** searchNews: a blank query shows the selected day again; otherwise the
        matching records in list order, or the no-results message. */
    method SearchNews(query: string)
      modifies this
      ensures view == SearchView(allNews, newsByDate, currentDateKey, query)
      ensures currentDateKey == old(currentDateKey)
      ensures allNews == old(allNews) && newsByDate == old(newsByDate)
      ensures pickerMin == old(pickerMin) && pickerMax == old(pickerMax) && stored == old(stored)
    {
      var q := Norm(query);
      if q == "" {
        RenderByDate(currentDateKey);
      } else {
        var hits := Hits(allNews, q);
        if hits == [] {
          view := Message(NoResultsText(query));
        } else {
          var cards := RenderCards(hits);
          view := Cards(cards);
        }
      }
    }

    /** The date picker's change handler. */
    method PickDate(v: string)
      modifies this
      ensures v == "" ==> view == old(view) && currentDateKey == old(currentDateKey)
      ensures v != "" && v in newsByDate ==> currentDateKey == v && view == DateView(newsByDate, v)
      ensures v != "" && v !in newsByDate ==>
        currentDateKey == old(currentDateKey) && view == Message(NoNewsText(v))
      ensures allNews == old(allNews) && newsByDate == old(newsByDate)
      ensures pickerMin == old(pickerMin) && pickerMax == old(pickerMax) && stored == old(stored)
    {
      if v != "" && v in newsByDate {
        RenderByDate(v);
      } else if v != "" {
        view := Message(NoNewsText(v));
      }
    }

    /** loadNews: `fetched` is the parsed response, None when the request,
        its status or its JSON failed. */
    method LoadNews(fetched: Option<Snapshot>)
      modifies this
      ensures fetched.Some? ==>
        stored == fetched && Shows(fetched.value) && PickerSpansDays(old(pickerMin), old(pickerMax))
      ensures fetched.None? && old(stored).Some? ==>
        stored == old(stored) && Shows(old(stored).value) && PickerSpansDays(old(pickerMin), old(pickerMax))
      ensures fetched.None? && old(stored).None? ==>
        view == Message(NO_DATA_TEXT) && stored == None &&
        allNews == old(allNews) && newsByDate == old(newsByDate) && currentDateKey == old(currentDateKey) &&
        pickerMin == old(pickerMin) && pickerMax == old(pickerMax)
    {
      if fetched.Some? {
        stored := fetched;
        ApplyData(fetched.value);
      } else if stored.Some? {
        ApplyData(stored.value);
      } else {
        view := Message(NO_DATA_TEXT);
      }
    }
  }

  /** A page that loaded `data` once and then found the network down on the
      next load shows the same records as the first time. */
  method OfflineReload(data: Snapshot) returns (first: seq<NewsRecord>, second: seq<NewsRecord>)
    ensures first == second == NewsOf(data)
  {
    var page := new Page(None);
    page.LoadNews(Some(data));
    first := page.allNews;
    var reopened := new Page(page.stored);
    reopened.LoadNews(None);
    second := reopened.allNews;
  }

  /** A well-formed day key `YYYY-MM-DD`. */
  predicate IsCalendarDate(d: string)
  {
    |d| == 10 && d[4] == '-' && d[7] == '-' &&
    forall k :: 0 <= k < 10 && k != 4 && k != 7 ==> '0' <= d[k] <= '9'
  }

  /** For an article stamped `YYYY-MM-DD...` the collector files the record
      under that day, and the presenter names that day `DD/MM/YYYY`. */
  lemma IsoTimestampDay(a: Collector.RawArticle, categoria: string, date: string, time: string)
    requires Collector.Truthy(a.title) && Collector.Truthy(a.url)
    requires a.publishedAt == Some(date + time) && IsCalendarDate(date)
    ensures var n := Collector.ToRecord(a, categoria);
            n.data_articolo == date && DayKey(n) == date &&
            FormatDateKey(DayKey(n)) == date[8..] + "/" + date[5..7] + "/" + date[..4]
  {
    var n := Collector.ToRecord(a, categoria);
    assert (date + time)[..10] == date;
    assert n.data_articolo == date;
    assert date == date[..4] + "-" + date[5..7] + "-" + date[8..];
    FormatDateKeyYmd(date[..4], date[5..7], date[8..]);
  }
}
