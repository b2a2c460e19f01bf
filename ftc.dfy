/**
 * The FTC refunds scraper: it walks the refund blocks of the listing page,
 * keeps the blocks whose heading names a refund, settlement or redress, and
 * reads a dollar amount out of each block's text.
 */
module Ftc {
  import opened Wrappers
  import opened Text
  import opened Records
  import opened Patterns

  const ListingUrl := "https://www.ftc.gov/enforcement/refunds"
  const Origin := "https://www.ftc.gov"
  const DefaultDescription :=
    "FTC consumer refund program. Visit official site for eligibility and claim details."
  const RelevantWords: seq<string> := ["refund", "settlement", "redress"]

  /** The heading names a refund program. */
  predicate IsRelevant(title: string) {
    exists w :: w in RelevantWords && Contains(Lower(title), w)
  }

  /** The relevance test ignores the case of ASCII letters. */
  lemma RelevanceIgnoresCase(title: string)
    ensures IsRelevant(title) <==> IsRelevant(Lower(title))
  {
    LowerIdempotent(title);
  }

  /** The href pattern of the fallback: `/enforcement/refunds/` anywhere in the href. */
  predicate IsRefundLink(href: string) {
    Contains(href, "/enforcement/refunds/")
  }

  /** The leftmost dollar figure of the block text, or "Varies" when there is none. */
  function Amount(text: string): (r: string)
    ensures r == "Varies" || (|r| >= 2 && r[0] == '$')
    ensures r != "Varies" <==> exists i :: 0 <= i <= |text| && FtcAmountAt(text[i..]).Some?
    ensures r != "Varies" ==> exists i :: LeftmostAt(text, FtcAmountAt, i) && FtcAmountAt(text[i..]) == Some(r)
  {
    match Search(text, FtcAmountAt)
    case Some(a) => a
    case None => "Varies"
  }

  /** The record of one refund block; blocks without a heading or not relevant are skipped. */
  function RefundRecord(block: Block, hash: string -> Digest): (r: Option<Opportunity>)
    ensures r.Some? <==> block.heading.Some? && IsRelevant(block.heading.value)
    ensures r.Some? ==>
      var title := block.heading.value;
      var url := ResolveLink(block.hrefs, Origin, ListingUrl);
      var description := block.paragraph.GetOr(DefaultDescription);
      && r.value.title == "FTC: " + title
      && r.value.id == hash(title + url)
      && r.value.url == url && r.value.detailsUrl == url
      && r.value.amount == Amount(block.text)
      && r.value.description == Truncate(description)
      && r.value.category == Some("Unclaimed money & refunds")
      && r.value.state == Some("Nationwide")
      && r.value.source == "ftc.gov"
  {
    match block.heading
    case None => None
    case Some(title) =>
      if !IsRelevant(title) then None
      else
        var url := ResolveLink(block.hrefs, Origin, ListingUrl);
        var description := block.paragraph.GetOr(DefaultDescription);
        Some(Opportunity(
          id := hash(title + url),
          title := "FTC: " + title,
          category := Some("Unclaimed money & refunds"),
          amount := Amount(block.text),
          deadline := "Check program",
          difficulty := "Medium",
          description := Truncate(description),
          url := url,
          detailsUrl := url,
          state := Some("Nationwide"),
          urgency := "medium",
          urgencyDays := 90,
          value := "good",
          featured := false,
          source := "ftc.gov"))
  }

  /** What every FTC record looks like: its title still names a refund program. */
  predicate WellFormed(o: Opportunity) {
    && StartsWith(o.title, "FTC: ")
    && IsRelevant(o.title[5..])
    && (o.amount == "Varies" || (|o.amount| >= 2 && o.amount[0] == '$'))
    && o.url == o.detailsUrl
    && |o.description| <= 203
    && o.source == "ftc.gov"
    && o.urgencyDays == 90
  }

  lemma RefundRecordWellFormed(block: Block, hash: string -> Digest)
    requires RefundRecord(block, hash).Some?
    ensures WellFormed(RefundRecord(block, hash).value)
  {
    var o := RefundRecord(block, hash).value;
    assert o.title[5..] == block.heading.value;
  }

  /** The records of a run of blocks, in block order. */
  function Refunds(blocks: seq<Block>, hash: string -> Digest): (r: seq<Opportunity>)
    ensures |r| <= |blocks|
  {
    Kept(blocks, b => RefundRecord(b, hash))
  }

  lemma RefundsLast(blocks: seq<Block>, hash: string -> Digest)
    requires blocks != []
    ensures var n := |blocks| - 1;
      var o := RefundRecord(blocks[n], hash);
      Refunds(blocks, hash) == Refunds(blocks[..n], hash) + (if o.Some? then [o.value] else [])
  {
    KeptLast(blocks, b => RefundRecord(b, hash));
  }

  /** Every record of a run is well formed. */
  lemma {:induction false} RefundsWellFormed(blocks: seq<Block>, hash: string -> Digest)
    ensures forall o :: o in Refunds(blocks, hash) ==> WellFormed(o)
  {
    if blocks != [] {
      var n := |blocks| - 1;
      RefundsWellFormed(blocks[..n], hash);
      RefundsLast(blocks, hash);
      if RefundRecord(blocks[n], hash).Some? {
        RefundRecordWellFormed(blocks[n], hash);
      }
    }
  }

  /** The headings of the blocks the relevance filter keeps, in block order. */
  function RelevantHeadings(blocks: seq<Block>): seq<string> {
    Kept(blocks, RelevantHeading)
  }

  /** A block's heading, when the relevance filter keeps the block. */
  function RelevantHeading(b: Block): Option<string> {
    if b.heading.Some? && IsRelevant(b.heading.value) then Some(b.heading.value) else None
  }

  /** Each relevant block contributes one record, titled after it, in block order. */
  lemma RefundsFollowRelevantHeadings(blocks: seq<Block>, hash: string -> Digest)
    ensures |Refunds(blocks, hash)| == |RelevantHeadings(blocks)|
    ensures forall i :: 0 <= i < |RelevantHeadings(blocks)| ==>
      Refunds(blocks, hash)[i].title == "FTC: " + RelevantHeadings(blocks)[i]
  {
    KeptAlike(blocks, b => RefundRecord(b, hash), RelevantHeading, (o: Opportunity, h: string) => o.title == "FTC: " + h);
  }

  /** The blocks a scrape walks: the located blocks, capped at maxPrograms. */
  function Items(page: ListingPage, maxPrograms: int): seq<Block> {
    PyTake(LocateItems(page, maxPrograms, IsRefundLink), maxPrograms)
  }

  /** The records a scrape returns; a failed fetch yields none. */
  function ScrapeResult(fetched: Option<ListingPage>, maxPrograms: int, hash: string -> Digest): (r: seq<Opportunity>)
    ensures |r| <= if maxPrograms < 0 then |r| else maxPrograms
    ensures fetched.None? ==> r == []
    ensures forall o :: o in r ==> WellFormed(o)
  {
    match fetched
    case None => []
    case Some(page) =>
      RefundsWellFormed(Items(page, maxPrograms), hash);
      Refunds(Items(page, maxPrograms), hash)
  }

  /**
   * scrape: walks the items in order, skipping those without a heading and
   * those whose heading is not about a refund.
   */
  method Scrape(fetched: Option<ListingPage>, maxPrograms: int, hash: string -> Digest)
    returns (opportunities: seq<Opportunity>)
    ensures opportunities == ScrapeResult(fetched, maxPrograms, hash)
  {
    opportunities := [];
    if fetched.None? {
      return;
    }
    var items := Items(fetched.value, maxPrograms);
    for i := 0 to |items|
      invariant opportunities == Refunds(items[..i], hash)
    {
      assert items[..i + 1][..i] == items[..i];
      var section := items[i];
      if section.heading.None? {
        continue;
      }
      var title := section.heading.value;
      if !(exists w :: w in RelevantWords && Contains(Lower(title), w)) {
        continue;
      }
      var o := RefundRecord(section, hash);
      opportunities := opportunities + [o.value];
    }
    assert items[..|items|] == items;
  }
}
