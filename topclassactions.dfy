/**
 * The TopClassActions scraper: it collects settlement links from up to five
 * listing pages, then reads each settlement page for its deadline, amount
 * and official claim site.
 */
module TopClassActions {
  import opened Wrappers
  import opened Text
  import opened Records
  import opened Patterns

  const BaseUrl := "https://topclassactions.com/category/lawsuit-settlements/open-lawsuit-settlements/"
  const SettlementPath := "/lawsuit-settlements/"
  const Description := "Class action settlement. Visit official site for full eligibility details."
  /** urgencyDays when no deadline is known or it cannot be read as a date. */
  const UnknownDays := 999

  /**
   * calculate_days_left: `daysUntil` reads a deadline as month/day/year and
   * gives the whole days from now until it, or None when it is not a date.
   * A passed deadline counts as zero days left.
   */
  function DaysLeft(deadline: string, daysUntil: string -> Option<int>): (r: int)
    ensures r >= 0
    ensures daysUntil(deadline).None? ==> r == UnknownDays
    ensures daysUntil(deadline).Some? ==> r == if daysUntil(deadline).value < 0 then 0 else daysUntil(deadline).value
  {
    match daysUntil(deadline)
    case None => UnknownDays
    case Some(days) => if days < 0 then 0 else days
  }

  /** A deadline exactly 999 days away reads the same as an unknown one. */
  lemma DaysLeftSentinelAmbiguous(known: string, unknown: string, daysUntil: string -> Option<int>)
    requires daysUntil(known) == Some(999) && daysUntil(unknown).None?
    ensures DaysLeft(known, daysUntil) == DaysLeft(unknown, daysUntil)
  {
  }

  /** An anchor with an href, and its text. */
  datatype Anchor = Anchor(href: string, text: string)

  const ClaimSites: seq<string> := ["settlement.com", "claims.com"]
  const ClaimWords: seq<string> := ["claim", "file", "submit", "here", "visit"]

  /** The anchor leads off-site to a settlement or claims site, with wording that invites a claim. */
  predicate IsClaimLink(a: Anchor) {
    && !Contains(a.href, "topclassactions.com")
    && (exists p :: p in ClaimSites && Contains(Lower(a.href), p))
    && (exists w :: w in ClaimWords && Contains(Lower(a.text), w))
  }

  /** extract_claim_url: the href of the first claim link of the page. */
  function ExtractClaimUrl(anchors: seq<Anchor>): (r: Option<string>)
    ensures r.None? <==> forall i :: 0 <= i < |anchors| ==> !IsClaimLink(anchors[i])
    ensures r.Some? ==> exists i :: (0 <= i < |anchors| && IsClaimLink(anchors[i])
      && r.value == anchors[i].href && forall j :: 0 <= j < i ==> !IsClaimLink(anchors[j]))
  {
    if anchors == [] then None
    else if IsClaimLink(anchors[0]) then Some(anchors[0].href)
    else
      var r := ExtractClaimUrl(anchors[1..]);
      assert forall i :: 1 <= i < |anchors| ==> anchors[i] == anchors[1..][i - 1];
      r
  }

  /** A link to the site itself is never taken as the claim site, whatever its wording. */
  lemma ClaimUrlOffSite(anchors: seq<Anchor>)
    requires ExtractClaimUrl(anchors).Some?
    ensures !Contains(ExtractClaimUrl(anchors).value, "topclassactions.com")
    ensures exists p :: p in ClaimSites && Contains(Lower(ExtractClaimUrl(anchors).value), p)
  {
  }

  /** The leftmost dollar figure of the page text, or "Varies"; it never ends in whitespace. */
  function Amount(text: string): (r: string)
    ensures r == "Varies" || (|r| >= 2 && r[0] == '$' && !IsSpace(r[|r| - 1]))
    ensures r != "Varies" <==> exists i :: 0 <= i <= |text| && TcaAmountAt(text[i..]).Some?
    ensures r != "Varies" ==> exists i :: LeftmostAt(text, TcaAmountAt, i) && TcaAmountAt(text[i..]) == Some(r)
  {
    match Search(text, TcaAmountAt)
    case Some(a) => a
    case None => "Varies"
  }

  /** The date following the first "deadline" or "file by" of the page text. */
  function Deadline(text: string): (r: Option<string>)
    ensures r.Some? ==> IsDate(r.value)
    ensures r.Some? <==> exists i :: 0 <= i <= |text| && DeadlineAt(text[i..]).Some?
    ensures r.Some? ==> exists i :: LeftmostAt(text, DeadlineAt, i) && DeadlineAt(text[i..]) == r
  {
    Search(text, DeadlineAt)
  }

  /** A fetched settlement page: the stripped text of its first h1, its anchors, and its whole text. */
  datatype DetailPage = DetailPage(h1: Option<string>, anchors: seq<Anchor>, text: string)

  /**
   * scrape_settlement_page: the record of one settlement page, or None when
   * the page could not be fetched (`fetched` is None).
   */
  function SettlementRecord(url: string, fetched: Option<DetailPage>, hash: string -> Digest,
                            daysUntil: string -> Option<int>): (r: Option<Opportunity>)
    ensures r.Some? <==> fetched.Some?
    ensures r.Some? ==>
      var page := fetched.value;
      var title := page.h1.GetOr("Unknown");
      var deadline := Deadline(page.text);
      && r.value.title == title
      && r.value.id == hash(title + url)
      && r.value.detailsUrl == url
      && r.value.url == ExtractClaimUrl(page.anchors).GetOr(url)
      && (deadline.None? ==> r.value.deadline == "TBD" && r.value.urgencyDays == UnknownDays)
      && (deadline.Some? ==>
            && r.value.deadline == deadline.value && IsDate(deadline.value)
            && r.value.urgencyDays == DaysLeft(deadline.value, daysUntil))
      && r.value.urgencyDays >= 0
      && r.value.amount == Amount(page.text)
      && r.value.source == "topclassactions.com"
  {
    match fetched
    case None => None
    case Some(page) =>
      var title := page.h1.GetOr("Unknown");
      var deadline := Deadline(page.text);
      Some(Opportunity(
        id := hash(title + url),
        title := title,
        category := Some("Privacy"),
        amount := Amount(page.text),
        deadline := deadline.GetOr("TBD"),
        difficulty := "Medium",
        description := Description,
        url := ExtractClaimUrl(page.anchors).GetOr(url),
        detailsUrl := url,
        state := Some("Nationwide"),
        urgency := "medium",
        urgencyDays := if deadline.Some? then DaysLeft(deadline.value, daysUntil) else UnknownDays,
        value := "fair",
        featured := false,
        source := "topclassactions.com"))
  }

  /** The number of listing pages fetched for a requested maximum: floor(max / 20) + 1, at most five. */
  function PagesToScrape(maxSettlements: int): (r: int)
    ensures maxSettlements >= 0 ==> 1 <= r <= 5
    ensures maxSettlements >= 80 ==> r == 5
    ensures 0 <= maxSettlements < 80 ==> 20 * (r - 1) <= maxSettlements < 20 * r
  {
    var byPage := maxSettlements / 20 + 1;
    if byPage < 5 then byPage else 5
  }

  /** A multiple of twenty fetches one page more than it needs: the count is floor plus one, not the ceiling. */
  lemma PagesNotCeiling()
    ensures PagesToScrape(20) == 2 && PagesToScrape(0) == 1 && PagesToScrape(40) == 3
  {
  }

  /** The address of listing page `page` (counting from 1). */
  function ListingUrl(page: nat): (r: string)
    ensures page <= 1 ==> r == BaseUrl
    ensures page > 1 ==> StartsWith(r, BaseUrl + "page/") && EndsWith(r, "/") && |r| > |BaseUrl|
  {
    if page <= 1 then BaseUrl else BaseUrl + "page/" + NatToString(page) + "/"
  }

  /** A later page's address carries, between "page/" and the final "/", the digits of its number. */
  lemma ListingUrlPage(page: nat)
    requires page > 1
    ensures var r, n := ListingUrl(page), |BaseUrl + "page/"|;
      && n < |r| - 1 && r[..n] == BaseUrl + "page/" && r[|r| - 1] == '/'
      && (forall i :: n <= i < |r| - 1 ==> IsDigit(r[i]))
      && DigitsValue(r[n..|r| - 1]) == page
  {
    var r, n := ListingUrl(page), |BaseUrl + "page/"|;
    assert r[n..|r| - 1] == NatToString(page);
    NatToStringValue(page);
  }

  /** Pages from 1 on each have an address of their own. */
  lemma ListingUrlDistinct(p: nat, q: nat)
    requires 1 <= p && 1 <= q && p != q
    ensures ListingUrl(p) != ListingUrl(q)
  {
    if p > 1 && q > 1 && ListingUrl(p) == ListingUrl(q) {
      var pre := BaseUrl + "page/";
      var u := ListingUrl(p);
      var a := NatToString(p);
      var b := NatToString(q);
      assert |a| == |b|;
      assert a == u[|pre|..|u| - 1] == b;
      NatToStringInjective(p, q);
    }
  }

  /** The collected settlement links: distinct, and all of them settlement paths. */
  predicate GoodUrls(urls: seq<string>) {
    && (forall i, j :: 0 <= i < j < |urls| ==> urls[i] != urls[j])
    && (forall i :: 0 <= i < |urls| ==> Contains(urls[i], SettlementPath))
  }

  /** One article's first link, added when it is a settlement path not seen before. */
  function AddLink(urls: seq<string>, link: Option<string>): (r: seq<string>)
    ensures link.Some? && Contains(link.value, SettlementPath) && link.value !in urls ==> r == urls + [link.value]
    ensures !(link.Some? && Contains(link.value, SettlementPath) && link.value !in urls) ==> r == urls
  {
    if link.Some? && Contains(link.value, SettlementPath) && link.value !in urls then urls + [link.value] else urls
  }

  /** The links of a page's articles (each article's first href, if any), added in order. */
  function AddLinks(urls: seq<string>, articles: seq<Option<string>>): (r: seq<string>)
    ensures GoodUrls(urls) ==> GoodUrls(r)
    ensures urls <= r
    ensures |r| <= |urls| + |articles|
  {
    if articles == [] then urls
    else AddLink(AddLinks(urls, articles[..|articles| - 1]), articles[|articles| - 1])
  }

  /**
   * The settlement links gathered from listing page `page` on: the scan stops
   * after the last page, at a page that cannot be fetched, or once `max`
   * links are in hand. `fetchListing` gives each article's first href, or
   * None when the request fails.
   */
  function CollectFrom(page: nat, pages: int, maxSettlements: int,
                       fetchListing: string -> Option<seq<Option<string>>>, urls: seq<string>): (r: seq<string>)
    ensures GoodUrls(urls) ==> GoodUrls(r)
    ensures urls <= r
    decreases if pages < page then 0 else pages - page + 1
  {
    if page > pages then urls
    else
      match fetchListing(ListingUrl(page))
      case None => urls
      case Some(articles) =>
        var more := AddLinks(urls, articles);
        if |more| >= maxSettlements then more
        else CollectFrom(page + 1, pages, maxSettlements, fetchListing, more)
  }

  /** The settlement links a scrape visits, capped at max. */
  function SettlementUrls(maxSettlements: int, fetchListing: string -> Option<seq<Option<string>>>): (r: seq<string>)
    ensures GoodUrls(r)
    ensures maxSettlements >= 0 ==> |r| <= maxSettlements
  {
    var all := CollectFrom(1, PagesToScrape(maxSettlements), maxSettlements, fetchListing, []);
    var r := PyTake(all, maxSettlements);
    assert forall i :: 0 <= i < |r| ==> r[i] == all[i];
    r
  }

  /** The records of the settlement pages, in link order; pages that fail are dropped. */
  function Settlements(urls: seq<string>, fetchDetail: string -> Option<DetailPage>,
                       hash: string -> Digest, daysUntil: string -> Option<int>): (r: seq<Opportunity>)
    ensures |r| <= |urls|
    ensures forall o :: o in r ==> o.detailsUrl in urls && o.urgencyDays >= 0 && o.source == "topclassactions.com"
  {
    if urls == [] then []
    else
      var n := |urls| - 1;
      var rest := Settlements(urls[..n], fetchDetail, hash, daysUntil);
      match SettlementRecord(urls[n], fetchDetail(urls[n]), hash, daysUntil)
      case None => rest
      case Some(o) => rest + [o]
  }

  /** Distinct links give records with distinct detail pages. */
  lemma {:induction false} SettlementsDistinct(urls: seq<string>, fetchDetail: string -> Option<DetailPage>,
                                               hash: string -> Digest, daysUntil: string -> Option<int>)
    requires forall i, j :: 0 <= i < j < |urls| ==> urls[i] != urls[j]
    ensures forall i, j :: 0 <= i < j < |Settlements(urls, fetchDetail, hash, daysUntil)| ==>
      Settlements(urls, fetchDetail, hash, daysUntil)[i].detailsUrl
        != Settlements(urls, fetchDetail, hash, daysUntil)[j].detailsUrl
  {
    if urls != [] {
      var n := |urls| - 1;
      SettlementsDistinct(urls[..n], fetchDetail, hash, daysUntil);
      var rest := Settlements(urls[..n], fetchDetail, hash, daysUntil);
      var r := Settlements(urls, fetchDetail, hash, daysUntil);
      var last := SettlementRecord(urls[n], fetchDetail(urls[n]), hash, daysUntil);
      if last.Some? {
        assert r == rest + [last.value];
        assert last.value.detailsUrl == urls[n];
        assert urls[n] !in urls[..n];
        forall i, j | 0 <= i < j < |r| ensures r[i].detailsUrl != r[j].detailsUrl {
          if j == |rest| {
            assert r[i] in rest;
          } else {
            assert r[i] == rest[i] && r[j] == rest[j];
          }
        }
      } else {
        assert r == rest;
      }
    }
  }

  /** What scrape returns. */
  function ScrapeResult(maxSettlements: int, fetchListing: string -> Option<seq<Option<string>>>,
                        fetchDetail: string -> Option<DetailPage>, hash: string -> Digest,
                        daysUntil: string -> Option<int>): (r: seq<Opportunity>)
    ensures maxSettlements >= 0 ==> |r| <= maxSettlements
    ensures forall i, j :: 0 <= i < j < |r| ==> r[i].detailsUrl != r[j].detailsUrl
    ensures forall o :: o in r ==> Contains(o.detailsUrl, SettlementPath) && o.urgencyDays >= 0
  {
    var urls := SettlementUrls(maxSettlements, fetchListing);
    SettlementsDistinct(urls, fetchDetail, hash, daysUntil);
    Settlements(urls, fetchDetail, hash, daysUntil)
  }

  lemma AddLinksNext(urls: seq<string>, articles: seq<Option<string>>, j: nat)
    requires j < |articles|
    ensures AddLinks(urls, articles[..j + 1]) == AddLink(AddLinks(urls, articles[..j]), articles[j])
  {
    assert articles[..j + 1][..j] == articles[..j];
  }

  lemma SettlementsNext(urls: seq<string>, i: nat, fetchDetail: string -> Option<DetailPage>,
                        hash: string -> Digest, daysUntil: string -> Option<int>)
    requires i < |urls|
    ensures var o := SettlementRecord(urls[i], fetchDetail(urls[i]), hash, daysUntil);
      Settlements(urls[..i + 1], fetchDetail, hash, daysUntil)
        == Settlements(urls[..i], fetchDetail, hash, daysUntil) + (if o.Some? then [o.value] else [])
  {
    assert urls[..i + 1][..i] == urls[..i];
  }

  /** The first phase of scrape: walk the listing pages and gather settlement links. */
  method CollectUrls(maxSettlements: int, fetchListing: string -> Option<seq<Option<string>>>)
    returns (urls: seq<string>)
    ensures urls == CollectFrom(1, PagesToScrape(maxSettlements), maxSettlements, fetchListing, [])
  {
    var pages := PagesToScrape(maxSettlements);
    urls := [];
    var page := 1;
    while page <= pages
      invariant 1 <= page
      invariant CollectFrom(page, pages, maxSettlements, fetchListing, urls)
             == CollectFrom(1, pages, maxSettlements, fetchListing, [])
      decreases pages - page
    {
      var fetched := fetchListing(ListingUrl(page));
      if fetched.None? {
        break;
      }
      var articles := fetched.value;
      ghost var start := urls;
      for j := 0 to |articles|
        invariant urls == AddLinks(start, articles[..j])
      {
        AddLinksNext(start, articles, j);
        var link := articles[j];
        if link.Some? && Contains(link.value, SettlementPath) && link.value !in urls {
          urls := urls + [link.value];
        }
      }
      assert articles[..|articles|] == articles;
      if |urls| >= maxSettlements {
        break;
      }
      page := page + 1;
    }
  }

  /** scrape: gather the links, cap them at max, then read each settlement page in turn. */
  method Scrape(maxSettlements: int, fetchListing: string -> Option<seq<Option<string>>>,
                fetchDetail: string -> Option<DetailPage>, hash: string -> Digest,
                daysUntil: string -> Option<int>)
    returns (opportunities: seq<Opportunity>)
    ensures opportunities == ScrapeResult(maxSettlements, fetchListing, fetchDetail, hash, daysUntil)
  {
    var urls := CollectUrls(maxSettlements, fetchListing);
    urls := PyTake(urls, maxSettlements);
    opportunities := [];
    for i := 0 to |urls|
      invariant opportunities == Settlements(urls[..i], fetchDetail, hash, daysUntil)
    {
      SettlementsNext(urls, i, fetchDetail, hash, daysUntil);
      var settlement := SettlementRecord(urls[i], fetchDetail(urls[i]), hash, daysUntil);
      if settlement.Some? {
        opportunities := opportunities + [settlement.value];
      }
    }
    assert urls[..|urls|] == urls;
    assert urls == SettlementUrls(maxSettlements, fetchListing);
  }
}
