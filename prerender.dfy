// The homepage pre-render step: reads the opportunity list, orders it,
// renders at most sixty cards between the two marker comments of the
// homepage and writes the total into the count badge.

module Prerender {
  import opened Wrappers
  import opened Text
  import Aggregate

  const Start := "<!-- OPPORTUNITIES:START -->"
  const End := "<!-- OPPORTUNITIES:END -->"
  const Site := "https://eosguidehub.com"
  const MaxCards := 60
  /** Sort position of a record whose deadline is missing or unreadable (10**9). */
  const NoDeadline := 1_000_000_000
  const Dash := "—"

  /**
   * One element of the opportunity array as the step reads it: a text field
   * is None when the key is missing or null; `featured` is its truth value.
   */
  datatype Record = Record(
    title: Option<string>,
    description: Option<string>,
    amount: Option<string>,
    state: Option<string>,
    category: Option<string>,
    url: Option<string>,
    deadline: Option<string>,
    featured: bool)

  /** `(s or "").strip()` */
  function Safe(s: Option<string>): (r: string)
    ensures s.None? ==> r == ""
    ensures r != [] ==> !IsSpace(r[0]) && !IsSpace(r[|r| - 1])
    ensures s.Some? ==> |r| <= |s.value|
    ensures s.Some? ==> Trims(s.value, r)
  {
    StripInfix(s.GetOr(""));
    Strip(s.GetOr(""))
  }

  lemma SafeIdempotent(s: Option<string>)
    ensures Safe(Some(Safe(s))) == Safe(s)
  {
    StripIdempotent(s.GetOr(""));
  }

  // ---------------------------------------------------------------------
  // HTML escaping
  // ---------------------------------------------------------------------

  /** What one character becomes in escaped text. */
  function EscapeChar(c: char): string
  {
    if c == '&' then "&amp;"
    else if c == '<' then "&lt;"
    else if c == '>' then "&gt;"
    else if c == '"' then "&quot;"
    else [c]
  }

  /** Reference definition: escape character by character. */
  function EscapeEach(s: string): (r: string)
    ensures |r| >= |s|
    ensures '<' !in r && '>' !in r && '"' !in r
  {
    if s == [] then [] else EscapeChar(s[0]) + EscapeEach(s[1..])
  }

  /** Replacing a one-character pattern, as a character-by-character map. */
  function MapChar(s: string, c: char, rep: string): string
  {
    if s == [] then [] else (if s[0] == c then rep else [s[0]]) + MapChar(s[1..], c, rep)
  }

  lemma {:induction false} ReplaceCharIsMap(s: string, c: char, rep: string)
    ensures ReplaceAll(s, [c], rep) == MapChar(s, c, rep)
  {
    if s != [] {
      ReplaceCharIsMap(s[1..], c, rep);
    }
  }

  lemma {:induction false} MapCharAppend(a: string, b: string, c: char, rep: string)
    ensures MapChar(a + b, c, rep) == MapChar(a, c, rep) + MapChar(b, c, rep)
  {
    if a != [] {
      var h := if a[0] == c then rep else [a[0]];
      assert (a + b)[0] == a[0] && (a + b)[1..] == a[1..] + b;
      MapCharAppend(a[1..], b, c, rep);
      calc {
        MapChar(a + b, c, rep);
        h + MapChar(a[1..] + b, c, rep);
        h + (MapChar(a[1..], c, rep) + MapChar(b, c, rep));
        (h + MapChar(a[1..], c, rep)) + MapChar(b, c, rep);
      }
    } else {
      assert a + b == b;
    }
  }

  lemma {:induction false} MapCharAbsent(s: string, c: char, rep: string)
    requires c !in s
    ensures MapChar(s, c, rep) == s
  {
    if s != [] {
      MapCharAbsent(s[1..], c, rep);
    }
  }

  function Chain(s: string): string
  {
    MapChar(MapChar(MapChar(MapChar(s, '&', "&amp;"), '<', "&lt;"), '>', "&gt;"), '"', "&quot;")
  }

  lemma ChainAppend(a: string, b: string)
    ensures Chain(a + b) == Chain(a) + Chain(b)
  {
    var a1, b1 := MapChar(a, '&', "&amp;"), MapChar(b, '&', "&amp;");
    MapCharAppend(a, b, '&', "&amp;");
    var a2, b2 := MapChar(a1, '<', "&lt;"), MapChar(b1, '<', "&lt;");
    MapCharAppend(a1, b1, '<', "&lt;");
    var a3, b3 := MapChar(a2, '>', "&gt;"), MapChar(b2, '>', "&gt;");
    MapCharAppend(a2, b2, '>', "&gt;");
    MapCharAppend(a3, b3, '"', "&quot;");
  }

  lemma MapCharOne(c: char, d: char, rep: string)
    ensures MapChar([c], d, rep) == if c == d then rep else [c]
  {
    assert [c][1..] == [];
    assert MapChar([c][1..], d, rep) == [];
  }

  /** The chain on an escaped entity: the later steps find nothing to replace. */
  lemma ChainRest(e: string, from: nat)
    requires 1 <= from <= 3
    requires (from <= 1 ==> '<' !in e) && (from <= 2 ==> '>' !in e) && '"' !in e
    ensures from == 1 ==> MapChar(MapChar(MapChar(e, '<', "&lt;"), '>', "&gt;"), '"', "&quot;") == e
    ensures from == 2 ==> MapChar(MapChar(e, '>', "&gt;"), '"', "&quot;") == e
    ensures from == 3 ==> MapChar(e, '"', "&quot;") == e
  {
    if from <= 1 {
      MapCharAbsent(e, '<', "&lt;");
    }
    if from <= 2 {
      MapCharAbsent(e, '>', "&gt;");
    }
    MapCharAbsent(e, '"', "&quot;");
  }

  lemma ChainChar(c: char)
    ensures Chain([c]) == EscapeChar(c)
  {
    MapCharOne(c, '&', "&amp;");
    if c == '&' {
      ChainRest("&amp;", 1);
    } else {
      MapCharOne(c, '<', "&lt;");
      if c == '<' {
        ChainRest("&lt;", 2);
      } else {
        MapCharOne(c, '>', "&gt;");
        if c == '>' {
          ChainRest("&gt;", 3);
        } else {
          MapCharOne(c, '"', "&quot;");
        }
      }
    }
  }

  lemma {:induction false} ChainIsEach(s: string)
    ensures Chain(s) == EscapeEach(s)
  {
    if s != [] {
      assert s == [s[0]] + s[1..];
      ChainAppend([s[0]], s[1..]);
      ChainChar(s[0]);
      ChainIsEach(s[1..]);
    }
  }

  /**
   * escape_html: four successive replace calls, `&` first. The result is the
   * character-by-character escape of the input.
   */
  function EscapeHtml(text: string): (r: string)
    ensures r == EscapeEach(text)
  {
    ReplaceCharIsMap(text, '&', "&amp;");
    var s1 := ReplaceAll(text, "&", "&amp;");
    ReplaceCharIsMap(s1, '<', "&lt;");
    var s2 := ReplaceAll(s1, "<", "&lt;");
    ReplaceCharIsMap(s2, '>', "&gt;");
    var s3 := ReplaceAll(s2, ">", "&gt;");
    ReplaceCharIsMap(s3, '"', "&quot;");
    ChainIsEach(text);
    ReplaceAll(s3, "\"", "&quot;")
  }

  /** Text without the four special characters is its own escape. */
  lemma {:induction false} EscapePlain(s: string)
    requires forall i :: 0 <= i < |s| ==> s[i] !in "&<>\""
    ensures EscapeEach(s) == s
  {
    if s != [] {
      EscapePlain(s[1..]);
      assert s == [s[0]] + s[1..];
    }
  }

  /** Every ampersand of t begins one of the four entities. */
  predicate AmpersandsAreEntities(t: string)
  {
    forall p :: 0 <= p < |t| && t[p] == '&' ==>
      "&amp;" <= t[p..] || "&lt;" <= t[p..] || "&gt;" <= t[p..] || "&quot;" <= t[p..]
  }

  lemma AmpersandsAppend(a: string, b: string)
    requires AmpersandsAreEntities(a) && AmpersandsAreEntities(b)
    ensures AmpersandsAreEntities(a + b)
  {
    var t := a + b;
    forall p | 0 <= p < |t| && t[p] == '&'
      ensures "&amp;" <= t[p..] || "&lt;" <= t[p..] || "&gt;" <= t[p..] || "&quot;" <= t[p..]
    {
      if p < |a| {
        assert t[p..] == a[p..] + b;
        assert a[p] == '&';
      } else {
        assert t[p..] == b[p - |a|..];
        assert b[p - |a|] == '&';
      }
    }
  }

  /** No bare ampersand survives escaping, so the text can be unescaped unambiguously. */
  lemma {:induction false} EscapedAmpersands(s: string)
    ensures AmpersandsAreEntities(EscapeEach(s))
  {
    if s != [] {
      EscapedAmpersands(s[1..]);
      var e := EscapeChar(s[0]);
      assert AmpersandsAreEntities(e) by {
        forall p | 0 <= p < |e| && e[p] == '&'
          ensures "&amp;" <= e[p..] || "&lt;" <= e[p..] || "&gt;" <= e[p..] || "&quot;" <= e[p..]
        {
          assert p == 0;
        }
      }
      AmpersandsAppend(e, EscapeEach(s[1..]));
    }
  }

  /** Unescaping the four entities, the partner of EscapeEach. */
  function Unescape(t: string): string
    decreases |t|
  {
    if t == [] then []
    else if "&amp;" <= t then "&" + Unescape(t[5..])
    else if "&lt;" <= t then "<" + Unescape(t[4..])
    else if "&gt;" <= t then ">" + Unescape(t[4..])
    else if "&quot;" <= t then "\"" + Unescape(t[6..])
    else [t[0]] + Unescape(t[1..])
  }

  lemma UnescapeEntity(ent: string, c: char, rest: string)
    requires ent in ["&amp;", "&lt;", "&gt;", "&quot;"]
    requires c == (if ent == "&amp;" then '&' else if ent == "&lt;" then '<' else if ent == "&gt;" then '>' else '"')
    ensures Unescape(ent + rest) == [c] + Unescape(rest)
  {
    var t := ent + rest;
    assert t[..|ent|] == ent && t[|ent|..] == rest;
    if ent == "&amp;" {
      assert "&amp;" <= t;
    } else if ent == "&lt;" {
      assert t[1] == 'l' && "&lt;" <= t;
    } else if ent == "&gt;" {
      assert t[1] == 'g' && "&gt;" <= t;
    } else {
      assert t[1] == 'q' && "&quot;" <= t;
    }
  }

  /** Unescaping undoes the escape of one character, whatever follows it. */
  lemma UnescapeChar(c: char, rest: string)
    ensures Unescape(EscapeChar(c) + rest) == [c] + Unescape(rest)
  {
    if c == '&' {
      UnescapeEntity("&amp;", c, rest);
    } else if c == '<' {
      UnescapeEntity("&lt;", c, rest);
    } else if c == '>' {
      UnescapeEntity("&gt;", c, rest);
    } else if c == '"' {
      UnescapeEntity("&quot;", c, rest);
    } else {
      var t := [c] + rest;
      assert t[0] == c && t[1..] == rest;
    }
  }

  lemma {:induction false} UnescapeEscape(s: string)
    ensures Unescape(EscapeEach(s)) == s
  {
    if s != [] {
      UnescapeEscape(s[1..]);
      UnescapeChar(s[0], EscapeEach(s[1..]));
      assert s == [s[0]] + s[1..];
    }
  }

  // ---------------------------------------------------------------------
  // Link normalisation
  // ---------------------------------------------------------------------

  /** A link starting with the site's own origin loses every occurrence of it. */
  function DropSite(url: string): (r: string)
    ensures !StartsWith(url, Site) ==> r == url
  {
    if StartsWith(url, Site) then ReplaceAll(url, Site, "") else url
  }

  /** A non-empty link that is not root-relative gets a leading slash. */
  function Rooted(url: string): (r: string)
    ensures r == "" <==> url == ""
    ensures r != "" ==> r[0] == '/'
    ensures url != "" && url[0] == '/' ==> r == url
  {
    if url != "" && !StartsWith(url, "/") then "/" + url else url
  }

  /** An article link not ending in ".html" loses its trailing slashes and gains ".html". */
  function ArticlePage(url: string): (r: string)
    ensures StartsWith(url, "/articles/") ==> StartsWith(r, "/articles") && EndsWith(r, ".html")
    ensures !StartsWith(url, "/articles/") || EndsWith(url, ".html") ==> r == url
  {
    if StartsWith(url, "/articles/") && !EndsWith(url, ".html") then
      var stem := RStripChar(url, '/');
      assert url[..10] == "/articles/";
      assert url[8] == 's' && |stem| >= 9;
      assert stem[..9] == url[..9];
      stem + ".html"
    else url
  }

  /** The card's link, from the record's stripped url. */
  function NormalizeUrl(url: string): (r: string)
    ensures r == "" <==> DropSite(url) == ""
    ensures r != "" ==> r[0] == '/'
    ensures StartsWith(r, "/articles/") ==> EndsWith(r, ".html")
    ensures !StartsWith(url, Site) && url != "" && url[0] == '/' && !StartsWith(url, "/articles/") ==> r == url
  {
    var rooted := Rooted(DropSite(url));
    var r := ArticlePage(rooted);
    assert r != "" ==> r[0] == '/' by {
      if StartsWith(rooted, "/articles/") && !EndsWith(rooted, ".html") {
        assert StartsWith(r, "/articles");
      }
    }
    r
  }

  /** The origin at the head of a link that holds no other copy of it is simply dropped. */
  lemma DropSiteOnce(path: string)
    requires !Contains(path, Site)
    ensures DropSite(Site + path) == path
  {
    var url := Site + path;
    assert Site <= url && url[|Site|..] == path;
    ReplaceHere(url, Site, "");
    ReplaceAbsent(path, Site, "");
  }

  /** An absolute link to an article of the site becomes its root-relative page link. */
  lemma SiteArticleLink(slug: string)
    requires slug != [] && slug[|slug| - 1] != '/' && !EndsWith("/articles/" + slug, ".html")
    requires !Contains("/articles/" + slug, Site)
    ensures NormalizeUrl(Site + "/articles/" + slug) == "/articles/" + slug + ".html"
  {
    var path := "/articles/" + slug;
    assert Site + "/articles/" + slug == Site + path;
    DropSiteOnce(path);
    assert path[0] == '/';
    assert Rooted(path) == path;
    assert path[|path| - 1] == slug[|slug| - 1];
    assert RStripChar(path, '/') == path;
    assert StartsWith(path, "/articles/");
  }

  /**
   * Removing one occurrence of a pattern can join its neighbours into a new
   * one: the replace makes a single pass and does not look again.
   */
  lemma {:induction false} RemovalRejoins(p: string)
    requires |p| >= 2 && p[0] != p[1]
    ensures ReplaceAll(p + [p[0]] + p + p[1..], p, "") == p
  {
    var s := p + [p[0]] + p + p[1..];
    var t := [p[0]] + p + p[1..];
    var u := p + p[1..];
    assert p <= s && s[|p|..] == t;
    ReplaceHere(s, p, "");
    assert t[1] == p[0] && !(p <= t);
    assert t[1..] == u;
    ReplaceSkip(t, p, "");
    assert p <= u && u[|p|..] == p[1..];
    ReplaceHere(u, p, "");
    assert ReplaceAll(p[1..], p, "") == p[1..];
    assert [p[0]] + p[1..] == p;
  }

  /** So a link that starts with the origin can still hold the origin once normalised. */
  lemma SiteRemovalIsSinglePass()
    ensures var url := Site + [Site[0]] + Site + Site[1..];
      StartsWith(url, Site) && Contains(NormalizeUrl(url), Site)
  {
    var url := Site + [Site[0]] + Site + Site[1..];
    assert Site[0] == 'h' && Site[1] == 't';
    RemovalRejoins(Site);
    assert Site <= url;
    var r := "/" + Site;
    assert Rooted(Site) == r;
    assert r[1] == 'h' && !StartsWith(r, "/articles/");
    assert ArticlePage(r) == r;
    ContainsAt(r, Site, 1);
  }

  // ---------------------------------------------------------------------
  // Cards
  // ---------------------------------------------------------------------

  /** What a card shows; the markup around the fields is not modelled. */
  datatype Card = Card(
    category: string,
    state: string,
    amount: string,
    deadline: string,
    title: string,
    description: string,
    href: string)

  /** `escape_html(safe(v)) or fallback` */
  function ShownOr(v: Option<string>, fallback: string): (r: string)
    ensures Safe(v) == "" ==> r == fallback
    ensures Safe(v) != "" ==> r == EscapeEach(Safe(v))
    ensures Markupless(fallback) ==> Markupless(r)
  {
    var e := EscapeHtml(Safe(v));
    if e == "" then fallback else e
  }

  predicate Markupless(s: string) { '<' !in s && '>' !in s && '"' !in s }

  /** No field of the card can open or close a tag or end an attribute value. */
  predicate CardMarkupless(c: Card)
  {
    && Markupless(c.category) && Markupless(c.state) && Markupless(c.amount)
    && Markupless(c.deadline) && Markupless(c.title) && Markupless(c.description)
    && Markupless(c.href)
  }

  /** `escape_html(format_deadline(raw))` */
  function DeadlineShown(raw: string, formatDate: string -> Option<string>): (r: string)
    ensures formatDate(raw).None? ==> r == "Not listed"
    ensures formatDate(raw).Some? ==> r == EscapeEach(formatDate(raw).value)
    ensures Markupless(r)
  {
    EscapePlain("Not listed");
    EscapeHtml(formatDate(raw).GetOr("Not listed"))
  }

  /**
   * card_html. `formatDate` is the strftime of the parsed deadline, None when
   * the stripped text is not a YYYY-MM-DD date.
   */
  function CardOf(o: Record, formatDate: string -> Option<string>): (c: Card)
    ensures c.title == EscapeEach(Safe(o.title)) && c.description == EscapeEach(Safe(o.description))
    ensures Safe(o.amount) == "" ==> c.amount == Dash
    ensures Safe(o.state) == "" ==> c.state == Dash
    ensures Safe(o.category) == "" ==> c.category == "Other"
    ensures Safe(o.amount) != "" ==> c.amount == EscapeEach(Safe(o.amount))
    ensures Safe(o.state) != "" ==> c.state == EscapeEach(Safe(o.state))
    ensures Safe(o.category) != "" ==> c.category == EscapeEach(Safe(o.category))
    ensures formatDate(Safe(o.deadline)).None? ==> c.deadline == "Not listed"
    ensures formatDate(Safe(o.deadline)).Some? ==> c.deadline == EscapeEach(formatDate(Safe(o.deadline)).value)
    ensures c.href == EscapeEach(NormalizeUrl(Safe(o.url)))
    ensures CardMarkupless(c)
  {
    assert Markupless(Dash) && Markupless("Other");
    Card(
      ShownOr(o.category, "Other"),
      ShownOr(o.state, Dash),
      ShownOr(o.amount, Dash),
      DeadlineShown(Safe(o.deadline), formatDate),
      EscapeHtml(Safe(o.title)),
      EscapeHtml(Safe(o.description)),
      EscapeHtml(NormalizeUrl(Safe(o.url))))
  }

  // ---------------------------------------------------------------------
  // Ordering
  // ---------------------------------------------------------------------

  /** Python's comparison of two strings: by code points, a prefix first. */
  predicate StrLe(a: string, b: string)
    decreases |a|
  {
    a == [] || (b != [] && (a[0] < b[0] || (a[0] == b[0] && StrLe(a[1..], b[1..]))))
  }

  lemma {:induction false} StrLeTotal(a: string, b: string)
    ensures StrLe(a, b) || StrLe(b, a)
    decreases |a|
  {
    if a != [] && b != [] && a[0] == b[0] {
      StrLeTotal(a[1..], b[1..]);
    }
  }

  lemma {:induction false} StrLeTrans(a: string, b: string, c: string)
    requires StrLe(a, b) && StrLe(b, c)
    ensures StrLe(a, c)
    decreases |a|
  {
    if a != [] && b != [] && c != [] && a[0] == b[0] && b[0] == c[0] {
      StrLeTrans(a[1..], b[1..], c[1..]);
    }
  }

  /** The tuple sort_key builds: (0 if featured else 1, days left or 10**9, lowercased title). */
  datatype SortKey = SortKey(rank: int, days: int, title: string)

  /** Tuple comparison, field by field. */
  predicate KeyLe(x: SortKey, y: SortKey)
  {
    x.rank < y.rank || (x.rank == y.rank && (x.days < y.days || (x.days == y.days && StrLe(x.title, y.title))))
  }

  lemma KeyLeTotal(x: SortKey, y: SortKey)
    ensures KeyLe(x, y) || KeyLe(y, x)
  {
    StrLeTotal(x.title, y.title);
  }

  lemma KeyLeTrans(x: SortKey, y: SortKey, z: SortKey)
    requires KeyLe(x, y) && KeyLe(y, z)
    ensures KeyLe(x, z)
  {
    if x.rank == y.rank == z.rank && x.days == y.days == z.days {
      StrLeTrans(x.title, y.title, z.title);
    }
  }

  /**
   * sort_key. `daysLeft` is the number of days from today to the parsed
   * deadline, None when the stripped text is not a YYYY-MM-DD date.
   */
  function SortKeyOf(o: Record, daysLeft: string -> Option<int>): (k: SortKey)
    ensures k.rank == 0 <==> o.featured
    ensures k.rank == 0 || k.rank == 1
    ensures daysLeft(Safe(o.deadline)).None? ==> k.days == NoDeadline
    ensures daysLeft(Safe(o.deadline)).Some? ==> k.days == daysLeft(Safe(o.deadline)).value
    ensures k.title == Lower(Safe(o.title))
  {
    SortKey(if o.featured then 0 else 1, daysLeft(Safe(o.deadline)).GetOr(NoDeadline), Lower(Safe(o.title)))
  }

  predicate SortedBy<T>(s: seq<T>, key: T -> SortKey)
  {
    forall i, j :: 0 <= i < j < |s| ==> KeyLe(key(s[i]), key(s[j]))
  }

  /** Insert x after every element whose key is not greater than x's. */
  function Insert<T>(x: T, s: seq<T>, key: T -> SortKey): (r: seq<T>)
    ensures |r| == |s| + 1
    ensures multiset(r) == multiset(s) + multiset{x}
  {
    if s == [] then [x]
    else if !KeyLe(key(s[0]), key(x)) then [x] + s
    else
      assert s == [s[0]] + s[1..];
      [s[0]] + Insert(x, s[1..], key)
  }

  lemma {:induction false} InsertLowerBound<T>(k: SortKey, x: T, s: seq<T>, key: T -> SortKey)
    requires KeyLe(k, key(x))
    requires forall i :: 0 <= i < |s| ==> KeyLe(k, key(s[i]))
    ensures forall i :: 0 <= i < |s| + 1 ==> KeyLe(k, key(Insert(x, s, key)[i]))
  {
    if s != [] && KeyLe(key(s[0]), key(x)) {
      InsertLowerBound(k, x, s[1..], key);
    }
  }

  lemma {:induction false} InsertSorted<T>(x: T, s: seq<T>, key: T -> SortKey)
    requires SortedBy(s, key)
    ensures SortedBy(Insert(x, s, key), key)
  {
    if s == [] {
    } else if !KeyLe(key(s[0]), key(x)) {
      KeyLeTotal(key(s[0]), key(x));
      forall j | 0 <= j < |s|
        ensures KeyLe(key(x), key(s[j]))
      {
        if j > 0 {
          KeyLeTrans(key(x), key(s[0]), key(s[j]));
        }
      }
    } else {
      var tail := Insert(x, s[1..], key);
      InsertSorted(x, s[1..], key);
      InsertLowerBound(key(s[0]), x, s[1..], key);
      assert Insert(x, s, key) == [s[0]] + tail;
    }
  }

  /** sorted(s, key=key), by insertion; equal keys keep their order. */
  function SortBy<T>(s: seq<T>, key: T -> SortKey): (r: seq<T>)
    ensures |r| == |s|
    ensures multiset(r) == multiset(s)
  {
    if s == [] then []
    else
      assert s == s[..|s| - 1] + [s[|s| - 1]];
      Insert(s[|s| - 1], SortBy(s[..|s| - 1], key), key)
  }

  lemma {:induction false} SortBySorted<T>(s: seq<T>, key: T -> SortKey)
    ensures SortedBy(SortBy(s, key), key)
  {
    if s != [] {
      SortBySorted(s[..|s| - 1], key);
      InsertSorted(s[|s| - 1], SortBy(s[..|s| - 1], key), key);
    }
  }

  /** The records in the order the page shows them. */
  function Ordered(opps: seq<Record>, daysLeft: string -> Option<int>): seq<Record>
  {
    SortBy(opps, o => SortKeyOf(o, daysLeft))
  }

  /**
   * In the page order every featured record comes before every other one, and
   * among records alike in that respect a nearer deadline comes first.
   */
  lemma FeaturedFirst(opps: seq<Record>, daysLeft: string -> Option<int>)
    ensures var t := Ordered(opps, daysLeft);
      && multiset(t) == multiset(opps)
      && (forall i, j :: 0 <= i < j < |t| && t[j].featured ==> t[i].featured)
      && (forall i, j :: 0 <= i < j < |t| && t[i].featured == t[j].featured ==>
            SortKeyOf(t[i], daysLeft).days <= SortKeyOf(t[j], daysLeft).days)
  {
    var key := o => SortKeyOf(o, daysLeft);
    SortBySorted(opps, key);
  }

  /** The cards kept are those that come first: nothing left out sorts ahead of a shown one. */
  lemma RenderedComeFirst(opps: seq<Record>, daysLeft: string -> Option<int>)
    ensures var t := Ordered(opps, daysLeft);
      var shown := PyTake(t, MaxCards);
      && |shown| == (if |opps| < MaxCards then |opps| else MaxCards)
      && forall i, j :: 0 <= i < |shown| <= j < |t| ==>
           KeyLe(SortKeyOf(t[i], daysLeft), SortKeyOf(t[j], daysLeft))
  {
    var key := o => SortKeyOf(o, daysLeft);
    SortBySorted(opps, key);
  }

  // ---------------------------------------------------------------------
  // Marker region and count badge
  // ---------------------------------------------------------------------

  /** Index of the first occurrence of sub in s. */
  function Find(s: string, sub: string): (r: Option<nat>)
    ensures r.Some? ==> r.value + |sub| <= |s| && sub <= s[r.value..]
    ensures r.Some? ==> forall k :: 0 <= k < r.value ==> !(sub <= s[k..])
    ensures r.None? ==> !Contains(s, sub)
    decreases |s|
  {
    if |s| < |sub| then None
    else if sub <= s then Some(0)
    else match Find(s[1..], sub)
      case None =>
        assert forall k :: 1 <= k <= |s| ==> s[k..] == s[1..][k - 1..];
        None
      case Some(i) =>
        assert forall k :: 1 <= k <= |s| ==> s[k..] == s[1..][k - 1..];
        Some(i + 1)
  }

  /**
   * The substitution of start, the shortest stretch of anything, then end:
   * scanning from the left, each start that has an end after it, through the
   * first such end, becomes repl; scanning resumes after that end.
   */
  function Regions(s: string, start: string, end: string, repl: string): string
    requires |start| > 0
    decreases |s|
  {
    if s == [] then s
    else if start <= s then
      (match Find(s[|start|..], end)
       case Some(k) => repl + Regions(s[|start| + k + |end|..], start, end, repl)
       case None => [s[0]] + Regions(s[1..], start, end, repl))
    else [s[0]] + Regions(s[1..], start, end, repl)
  }

  lemma RegionHere(s: string, start: string, end: string, repl: string, k: nat)
    requires |start| > 0 && start <= s && Find(s[|start|..], end) == Some(k)
    ensures Regions(s, start, end, repl) == repl + Regions(s[|start| + k + |end|..], start, end, repl)
  {
  }

  lemma NoRegionHere(s: string, start: string, end: string, repl: string)
    requires |start| > 0 && s != [] && !(start <= s)
    ensures Regions(s, start, end, repl) == [s[0]] + Regions(s[1..], start, end, repl)
  {
  }

  lemma {:induction false} RegionsCopyFrom(s: string, start: string, end: string, repl: string, i: nat, j: nat)
    requires |start| > 0 && j <= i <= |s|
    requires forall k :: j <= k < i ==> !(start <= s[k..])
    ensures Regions(s[j..], start, end, repl) == s[j..i] + Regions(s[i..], start, end, repl)
    decreases i - j
  {
    if j < i {
      var u := s[j..];
      NoRegionHere(u, start, end, repl);
      assert u[1..] == s[j + 1..];
      RegionsCopyFrom(s, start, end, repl, i, j + 1);
      ConsSlice(s, j, i, Regions(s[i..], start, end, repl));
    }
  }

  /** A page without the start marker is left as it is. */
  lemma RegionsWithoutStart(s: string, start: string, end: string, repl: string)
    requires |start| > 0 && !Contains(s, start)
    ensures Regions(s, start, end, repl) == s
  {
    RegionsCopyFrom(s, start, end, repl, |s|, 0);
    assert s[0..] == s && s[0..|s|] == s && s[|s|..] == [];
  }

  /**
   * Everything before the first start is kept, and the region from it
   * through the first end after it is replaced (the match is non-greedy).
   */
  lemma FirstRegion(s: string, start: string, end: string, repl: string, i: nat, k: nat)
    requires |start| > 0 && i + |start| <= |s| && start <= s[i..]
    requires forall j :: 0 <= j < i ==> !(start <= s[j..])
    requires Find(s[i + |start|..], end) == Some(k)
    ensures Regions(s, start, end, repl) == s[..i] + (repl + Regions(s[i + |start| + k + |end|..], start, end, repl))
  {
    var t := s[i..];
    var rest := s[i + |start| + k + |end|..];
    assert t[|start|..] == s[i + |start|..];
    assert t[|start| + k + |end|..] == rest;
    RegionHere(t, start, end, repl, k);
    RegionsCopyFrom(s, start, end, repl, i, 0);
    assert s[0..] == s && s[0..i] == s[..i];
    calc {
      Regions(s, start, end, repl);
      s[..i] + Regions(t, start, end, repl);
      s[..i] + (repl + Regions(rest, start, end, repl));
    }
  }

  /** Where a badge match ends its opening tag, and where the whole match ends. */
  datatype Badge = Badge(open: nat, total: nat)

  /**
   * "<span", at least one character and the oppCount id before the first ">",
   * then text without "<" up to "</span>".
   */
  predicate BadgeShape(s: string, b: Badge)
  {
    && |SpanOpen| + 2 <= b.open && b.open + |SpanClose| <= b.total <= |s|
    && StartsWith(s, SpanOpen) && s[b.open - 1] == '>' && '>' !in s[..b.open - 1]
    && Contains(s[|SpanOpen| + 1..b.open - 1], CountAttr)
    && '<' !in s[b.open..b.total - |SpanClose|] && s[b.total - |SpanClose|..b.total] == SpanClose
  }

  lemma BadgeAtShape(s: string, g: nat, l: nat)
    requires SpanOpen <= s && IndexOf(s[5..], '>') == Some(g)
    requires 6 <= 5 + g && Contains(s[6..5 + g], CountAttr)
    requires IndexOf(s[6 + g..], '<') == Some(l) && SpanClose <= s[6 + g + l..]
    ensures BadgeShape(s, Badge(6 + g, 6 + g + l + 7))
  {
    assert s[..5 + g] == s[..5] + s[5..][..g];
    assert s[..5] == SpanOpen;
    assert s[6 + g..6 + g + l] == s[6 + g..][..l];
    assert s[6 + g + l..6 + g + l + 7] == SpanClose;
  }

  const SpanOpen := "<span"
  const CountAttr := "id=\"oppCount\""
  const SpanClose := "</span>"

  /**
   * A match of the count-badge pattern at the start of s: "<span", at least
   * one character and the oppCount id before the first ">", then text without
   * "<" up to "</span>". Returns the length of the opening tag and of the match.
   */
  function SpanAt(s: string): (r: Option<Badge>)
    ensures r.Some? ==> BadgeShape(s, r.value)
  {
    if !(SpanOpen <= s) then None
    else match IndexOf(s[5..], '>')
      case None => None
      case Some(g) =>
        var gt := 5 + g;
        if gt < 6 || !Contains(s[6..gt], CountAttr) then None
        else match IndexOf(s[gt + 1..], '<')
          case None => None
          case Some(l) =>
            if SpanClose <= s[gt + 1 + l..] then
              BadgeAtShape(s, g, l);
              Some(Badge(gt + 1, gt + 1 + l + 7))
            else None
  }

  /** The badge's new text and closing tag. */
  function Filled(shown: string): string { "(" + shown + ")" + SpanClose }

  /** Every match `at` reports lies inside the text it was given. */
  ghost predicate Fits(at: string -> Option<Badge>)
  {
    forall t :: at(t).Some? ==> at(t).value.open <= at(t).value.total <= |t|
  }

  /**
   * A substitution with count=1: the leftmost match that `at` finds keeps its
   * first `open` characters and the rest of it becomes f.
   */
  function ReplaceFirst(s: string, at: string -> Option<Badge>, f: string): string
    requires Fits(at)
    decreases |s|
  {
    match at(s)
    case Some(b) => s[..b.open] + f + s[b.total..]
    case None => if s == [] then s else [s[0]] + ReplaceFirst(s[1..], at, f)
  }

  lemma {:induction false} NoMatchUnchanged(s: string, at: string -> Option<Badge>, f: string)
    requires Fits(at)
    requires forall i :: 0 <= i <= |s| ==> at(s[i..]).None?
    ensures ReplaceFirst(s, at, f) == s
  {
    if s != [] {
      assert s[0..] == s;
      forall i | 0 <= i <= |s| - 1
        ensures at(s[1..][i..]).None?
      {
        assert s[1..][i..] == s[i + 1..];
      }
      NoMatchUnchanged(s[1..], at, f);
      assert s == [s[0]] + s[1..];
    }
  }

  lemma MatchHere(s: string, at: string -> Option<Badge>, f: string)
    requires Fits(at) && at(s).Some?
    ensures ReplaceFirst(s, at, f) == s[..at(s).value.open] + f + s[at(s).value.total..]
  {
  }

  lemma NoMatchHere(s: string, at: string -> Option<Badge>, f: string)
    requires Fits(at) && at(s).None? && s != []
    ensures ReplaceFirst(s, at, f) == [s[0]] + ReplaceFirst(s[1..], at, f)
  {
  }

  lemma ConsSlice(s: string, j: nat, m: nat, tail: string)
    requires j < m <= |s|
    ensures [s[j]] + (s[j + 1..m] + tail) == s[j..m] + tail
  {
    assert s[j..m] == [s[j]] + s[j + 1..m];
  }

  lemma MatchAt(s: string, at: string -> Option<Badge>, f: string, i: nat)
    requires Fits(at) && i <= |s| && at(s[i..]).Some?
    ensures var b := at(s[i..]).value;
      ReplaceFirst(s[i..], at, f) == s[i..i + b.open] + (f + s[i + b.total..])
  {
    var b := at(s[i..]).value;
    MatchHere(s[i..], at, f);
    assert s[i..][..b.open] == s[i..i + b.open];
    assert s[i..][b.total..] == s[i + b.total..];
  }

  lemma SkipAt(s: string, at: string -> Option<Badge>, f: string, j: nat, m: nat, tail: string)
    requires Fits(at) && j < m <= |s| && at(s[j..]).None?
    requires ReplaceFirst(s[j + 1..], at, f) == s[j + 1..m] + tail
    ensures ReplaceFirst(s[j..], at, f) == s[j..m] + tail
  {
    var u := s[j..];
    NoMatchHere(u, at, f);
    assert u[1..] == s[j + 1..];
    ConsSlice(s, j, m, tail);
  }

  lemma {:induction false} OnlyFirstFrom(s: string, at: string -> Option<Badge>, f: string, i: nat, j: nat)
    requires Fits(at)
    requires j <= i <= |s| && at(s[i..]).Some?
    requires forall k :: j <= k < i ==> at(s[k..]).None?
    ensures var b := at(s[i..]).value;
      ReplaceFirst(s[j..], at, f) == s[j..i + b.open] + (f + s[i + b.total..])
    decreases i - j
  {
    if j == i {
      MatchAt(s, at, f, i);
    } else {
      var b := at(s[i..]).value;
      OnlyFirstFrom(s, at, f, i, j + 1);
      SkipAt(s, at, f, j, i + b.open, f + s[i + b.total..]);
    }
  }

  /** Scanning stops at the leftmost match: what follows it is kept as it is. */
  lemma OnlyFirstMatch(s: string, at: string -> Option<Badge>, f: string, i: nat)
    requires Fits(at)
    requires i <= |s| && at(s[i..]).Some?
    requires forall k :: 0 <= k < i ==> at(s[k..]).None?
    ensures var b := at(s[i..]).value;
      ReplaceFirst(s, at, f) == s[..i + b.open] + f + s[i + b.total..]
  {
    OnlyFirstFrom(s, at, f, i, 0);
    assert s[0..] == s;
  }

  /** OnlyFirstMatch with the leftmost match given by name. */
  lemma MatchIsFirst(s: string, at: string -> Option<Badge>, f: string, p: nat, b: Badge)
    requires Fits(at) && p <= |s| && at(s[p..]) == Some(b)
    requires forall k :: 0 <= k < p ==> at(s[k..]).None?
    ensures p + b.open <= p + b.total <= |s|
    ensures ReplaceFirst(s, at, f) == s[..p + b.open] + f + s[p + b.total..]
  {
    OnlyFirstMatch(s, at, f, p);
  }

  lemma SpanAtFits()
    ensures Fits(SpanAt)
  {
  }

  /** re.sub(..., count=1) on the count badge: its text becomes "(shown)". */
  function CountBadge(s: string, shown: string): string
  {
    SpanAtFits();
    ReplaceFirst(s, SpanAt, Filled(shown))
  }

  /** Only the leftmost badge gets the new text. */
  lemma BadgeFirst(s: string, shown: string, p: nat, b: Badge)
    requires p <= |s| && SpanAt(s[p..]) == Some(b)
    requires forall q :: 0 <= q < p ==> SpanAt(s[q..]).None?
    ensures p + b.open <= p + b.total <= |s|
    ensures CountBadge(s, shown) == s[..p + b.open] + Filled(shown) + s[p + b.total..]
  {
    SpanAtFits();
    MatchIsFirst(s, SpanAt, Filled(shown), p, b);
  }

  /** A page with no badge is left as it is. */
  lemma NoBadgeUnchanged(s: string, shown: string)
    requires forall i :: 0 <= i <= |s| ==> SpanAt(s[i..]).None?
    ensures CountBadge(s, shown) == s
  {
    SpanAtFits();
    NoMatchUnchanged(s, SpanAt, Filled(shown));
  }

  // ---------------------------------------------------------------------
  // The whole step
  // ---------------------------------------------------------------------

  /** What the opportunity file holds once parsed: only a bare array is accepted. */
  datatype Json = JArray(items: seq<Record>) | JObject(keys: seq<string>)

  /** The file the aggregation step writes: an object with two keys. */
  function Written(output: Aggregate.Output): (j: Json)
    ensures j.JObject?
  {
    JObject(["opportunities", "metadata"])
  }

  datatype Page = Page(html: string, rendered: nat, total: nat)

  function Cards(shown: seq<Record>, formatDate: string -> Option<string>, render: Card -> string): string
  {
    Join(seq(|shown|, i requires 0 <= i < |shown| => render(CardOf(shown[i], formatDate))), "\n")
  }

  /** The homepage with its opportunity region(s) replaced by the first MaxCards cards in sorted order. */
  function PageBody(opps: seq<Record>, homepage: string,
                    daysLeft: string -> Option<int>, formatDate: string -> Option<string>,
                    render: Card -> string): string
  {
    var cards := Cards(PyTake(Ordered(opps, daysLeft), MaxCards), formatDate, render);
    Regions(homepage, Start, End, Start + "\n" + cards + "\n" + End)
  }

  /**
   * main: `file` is the parsed opportunity file, None when it is missing;
   * `render` is the card markup around the fields.
   */
  function PrerenderPage(file: Option<Json>, homepage: string,
                         daysLeft: string -> Option<int>, formatDate: string -> Option<string>,
                         render: Card -> string): (r: Result<Page, string>)
    ensures r.Success? <==>
      file.Some? && file.value.JArray? && Contains(homepage, Start) && Contains(homepage, End)
    ensures file.None? ==> r == Failure("Missing data/opportunities.json")
    ensures file.Some? && file.value.JObject? ==> r == Failure("data/opportunities.json must be a JSON array")
    ensures r.Success? ==> var n := |file.value.items|;
      && r.value.total == n
      && r.value.rendered == (if n < MaxCards then n else MaxCards)
  {
    match file
    case None => Failure("Missing data/opportunities.json")
    case Some(JObject(_)) => Failure("data/opportunities.json must be a JSON array")
    case Some(JArray(opps)) =>
      var shown := PyTake(Ordered(opps, daysLeft), MaxCards);
      if !Contains(homepage, Start) || !Contains(homepage, End) then
        Failure("Missing OPPORTUNITIES markers in index.html")
      else
        var html := PageBody(opps, homepage, daysLeft, formatDate, render);
        Success(Page(CountBadge(html, NatToString(|opps|)), |shown|, |opps|))
  }

  /**
   * The first START that has an END after it opens the region the cards go
   * into: the page before it is kept, and START, a newline, the cards, a
   * newline and END take the place of the region through the nearest END.
   */
  lemma CardsFillRegion(opps: seq<Record>, homepage: string,
                        daysLeft: string -> Option<int>, formatDate: string -> Option<string>,
                        render: Card -> string, i: nat, k: nat)
    requires i + |Start| <= |homepage| && Start <= homepage[i..]
    requires forall j :: 0 <= j < i ==> !(Start <= homepage[j..])
    requires Find(homepage[i + |Start|..], End) == Some(k)
    ensures var repl := Start + "\n" + Cards(PyTake(Ordered(opps, daysLeft), MaxCards), formatDate, render) + "\n" + End;
      PageBody(opps, homepage, daysLeft, formatDate, render)
        == homepage[..i] + (repl + Regions(homepage[i + |Start| + k + |End|..], Start, End, repl))
  {
    var repl := Start + "\n" + Cards(PyTake(Ordered(opps, daysLeft), MaxCards), formatDate, render) + "\n" + End;
    FirstRegion(homepage, Start, End, repl, i, k);
  }

  /** With both markers present the page is the substituted body with its count badge filled. */
  lemma PageHtml(opps: seq<Record>, homepage: string,
                 daysLeft: string -> Option<int>, formatDate: string -> Option<string>,
                 render: Card -> string)
    requires Contains(homepage, Start) && Contains(homepage, End)
    ensures PrerenderPage(Some(JArray(opps)), homepage, daysLeft, formatDate, render)
      == Success(Page(CountBadge(PageBody(opps, homepage, daysLeft, formatDate, render), NatToString(|opps|)),
                      |PyTake(Ordered(opps, daysLeft), MaxCards)|, |opps|))
  {
  }

  /**
   * The first count badge of the page, after the cards are in, shows the
   * number of records in the file (not the number rendered); the rest of
   * the page is kept.
   */
  lemma BadgeShowsTotal(opps: seq<Record>, homepage: string,
                        daysLeft: string -> Option<int>, formatDate: string -> Option<string>,
                        render: Card -> string, p: nat, b: Badge)
    requires Contains(homepage, Start) && Contains(homepage, End)
    requires var body := PageBody(opps, homepage, daysLeft, formatDate, render);
      && p <= |body| && SpanAt(body[p..]) == Some(b)
      && forall q :: 0 <= q < p ==> SpanAt(body[q..]).None?
    ensures var body := PageBody(opps, homepage, daysLeft, formatDate, render);
      && p + b.open <= p + b.total <= |body|
      && PrerenderPage(Some(JArray(opps)), homepage, daysLeft, formatDate, render).value.html
           == body[..p + b.open] + ("(" + NatToString(|opps|) + ")" + SpanClose) + body[p + b.total..]
  {
    var body := PageBody(opps, homepage, daysLeft, formatDate, render);
    PageHtml(opps, homepage, daysLeft, formatDate, render);
    BadgeFirst(body, NatToString(|opps|), p, b);
  }

  /** Without a count badge the page is the homepage with the cards substituted. */
  lemma NoBadgeKeepsBody(opps: seq<Record>, homepage: string,
                         daysLeft: string -> Option<int>, formatDate: string -> Option<string>,
                         render: Card -> string)
    requires Contains(homepage, Start) && Contains(homepage, End)
    requires var body := PageBody(opps, homepage, daysLeft, formatDate, render);
      forall q :: 0 <= q <= |body| ==> SpanAt(body[q..]).None?
    ensures PrerenderPage(Some(JArray(opps)), homepage, daysLeft, formatDate, render).value.html
      == PageBody(opps, homepage, daysLeft, formatDate, render)
  {
    PageHtml(opps, homepage, daysLeft, formatDate, render);
    NoBadgeUnchanged(PageBody(opps, homepage, daysLeft, formatDate, render), NatToString(|opps|));
  }

  /** The file the aggregation step writes is refused by this step. */
  lemma StagesDisagree(output: Aggregate.Output, homepage: string,
                       daysLeft: string -> Option<int>, formatDate: string -> Option<string>,
                       render: Card -> string)
    ensures PrerenderPage(Some(Written(output)), homepage, daysLeft, formatDate, render).Failure?
  {
  }
}
