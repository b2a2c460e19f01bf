/**
 * The record every scraper emits, the abstract view of a parsed listing
 * page, and the field derivations that the CPSC and FTC scrapers share.
 */
module Records {
  import opened Wrappers
  import opened Text

  predicate IsHexDigit(c: char) { '0' <= c <= '9' || 'a' <= c <= 'f' }

  /** The first twelve characters of an MD5 hexdigest. */
  type Digest = s: string | |s| == 12 && forall i :: 0 <= i < |s| ==> IsHexDigit(s[i])
    witness "000000000000"

  /**
   * One scraped opportunity. `category` and `state` are read back with a
   * default by the aggregator, so a record may lack them.
   */
  datatype Opportunity = Opportunity(
    id: Digest,
    title: string,
    category: Option<string>,
    amount: string,
    deadline: string,
    difficulty: string,
    description: string,
    url: string,
    detailsUrl: string,
    state: Option<string>,
    urgency: string,
    urgencyDays: int,
    value: string,
    featured: bool,
    source: string)

  /** A `div` or `article` element of a listing page, as the scrapers look at it. */
  datatype Block = Block(
    heading: Option<string>,    // stripped text of its first h2, h3, h4 or a element
    hrefs: seq<string>,         // href of each of its anchors that has one, in document order
    paragraph: Option<string>,  // stripped text of its first p element
    text: string)               // its whole text

  /** An anchor of a listing page that has an href, with its nearest div or article ancestor. */
  datatype PageLink = PageLink(href: string, parent: Option<Block>)

  /**
   * A fetched listing page: the blocks whose class matches the scraper's
   * class pattern, and every anchor with an href, in document order.
   */
  datatype ListingPage = ListingPage(classMatches: seq<Block>, links: seq<PageLink>)

  /** The parents of the first `max` links the pattern accepts, skipping links without one. */
  function FallbackBlocks(links: seq<PageLink>, max: int, pattern: string -> bool): (r: seq<Block>)
    ensures |r| <= |links|
    ensures max >= 0 ==> |r| <= max
    ensures forall b :: b in r ==> exists l :: l in links && pattern(l.href) && l.parent == Some(b)
  {
    Parents(PyTake(Matching(links, pattern), max))
  }

  /** When the first link the pattern accepts has a parent and max is positive, that parent comes first. */
  lemma FallbackStartsAtFirstMatch(links: seq<PageLink>, max: int, pattern: string -> bool, i: nat)
    requires 1 <= max && i < |links| && pattern(links[i].href) && links[i].parent.Some?
    requires forall j :: 0 <= j < i ==> !pattern(links[j].href)
    ensures FallbackBlocks(links, max, pattern) != []
    ensures FallbackBlocks(links, max, pattern)[0] == links[i].parent.value
  {
    MatchingSkips(links, pattern, i);
    var m := Matching(links, pattern);
    assert m[0] == links[i];
    var t := PyTake(m, max);
    assert t[0] == links[i];
    assert Parents(t) == [links[i].parent.value] + Parents(t[1..]);
  }

  /** Links the pattern rejects are skipped: the matches start with the first accepted link. */
  lemma {:induction false} MatchingSkips(links: seq<PageLink>, pattern: string -> bool, i: nat)
    requires i < |links| && pattern(links[i].href)
    requires forall j :: 0 <= j < i ==> !pattern(links[j].href)
    ensures Matching(links, pattern) != [] && Matching(links, pattern)[0] == links[i]
  {
    if i > 0 {
      MatchingSkips(links[1..], pattern, i - 1);
    }
  }

  function Matching(links: seq<PageLink>, pattern: string -> bool): (r: seq<PageLink>)
    ensures |r| <= |links|
    ensures forall l :: l in r ==> l in links && pattern(l.href)
  {
    if links == [] then []
    else (if pattern(links[0].href) then [links[0]] else []) + Matching(links[1..], pattern)
  }

  function Parents(links: seq<PageLink>): (r: seq<Block>)
    ensures |r| <= |links|
    ensures forall b :: b in r ==> exists l :: l in links && l.parent == Some(b)
  {
    if links == [] then []
    else (if links[0].parent.Some? then [links[0].parent.value] else []) + Parents(links[1..])
  }

  /**
   * The blocks a scraper walks: the class matches, or, only when there are
   * none, the fallback blocks found through links.
   */
  function LocateItems(page: ListingPage, max: int, pattern: string -> bool): (r: seq<Block>)
    ensures page.classMatches != [] ==> r == page.classMatches
    ensures page.classMatches == [] ==> r == FallbackBlocks(page.links, max, pattern)
  {
    if page.classMatches != [] then page.classMatches else FallbackBlocks(page.links, max, pattern)
  }

  /** A description longer than 200 characters keeps its first 200 and gains "...". */
  function Truncate(description: string): (r: string)
    ensures |description| <= 200 ==> r == description
    ensures |description| > 200 ==> |r| == 203 && r[..200] == description[..200] && r[200..] == "..."
    ensures |r| <= 203
  {
    if |description| > 200 then description[..200] + "..." else description
  }

  /** The first href of a block, made absolute against `origin` when site-relative; the listing URL when there is none. */
  function ResolveLink(hrefs: seq<string>, origin: string, listingUrl: string): (r: string)
    ensures hrefs == [] && !StartsWith(listingUrl, "/") ==> r == listingUrl
    ensures hrefs != [] && StartsWith(hrefs[0], "/") ==> r == origin + hrefs[0]
    ensures hrefs != [] && !StartsWith(hrefs[0], "/") ==> r == hrefs[0]
  {
    var href := if hrefs != [] then hrefs[0] else listingUrl;
    if StartsWith(href, "/") then origin + href else href
  }
}
