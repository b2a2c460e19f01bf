/**
 * The CPSC recalls scraper: it walks the recall blocks of the listing page
 * and turns each block with a heading into a recall record, categorised by
 * keywords in its title.
 */
module Cpsc {
  import opened Wrappers
  import opened Text
  import opened Records
  import opened Patterns

  const ListingUrl := "https://www.cpsc.gov/Recalls"
  const Origin := "https://www.cpsc.gov"
  const DefaultDescription :=
    "Product recall. Check if you own this item and file for refund/replacement."

  /** The category table, in the order it is consulted. */
  const Buckets: seq<(string, seq<string>)> := [
    ("Consumer Products", ["toy", "furniture", "appliance", "mattress", "clothing", "bedding"]),
    ("Technology", ["charger", "battery", "electric", "electronic", "device", "phone"]),
    ("Health & Safety", ["baby", "child", "infant", "stroller", "crib", "seat"]),
    ("Home & Garden", ["ladder", "tool", "heater", "fan", "light", "candle"])
  ]

  /** Some keyword occurs in t. */
  predicate Mentions(t: string, keywords: seq<string>) {
    exists k :: k in keywords && Contains(t, k)
  }

  /** The name of the first bucket of the table with a keyword occurring in t. */
  function FirstBucket(t: string, table: seq<(string, seq<string>)>): (r: Option<string>)
    ensures r.None? <==> forall i :: 0 <= i < |table| ==> !Mentions(t, table[i].1)
    ensures r.Some? ==> exists i :: (0 <= i < |table| && table[i].0 == r.value && Mentions(t, table[i].1)
      && forall j :: 0 <= j < i ==> !Mentions(t, table[j].1))
  {
    if table == [] then None
    else if Mentions(t, table[0].1) then Some(table[0].0)
    else
      var r := FirstBucket(t, table[1..]);
      assert forall i :: 1 <= i < |table| ==> table[i] == table[1..][i - 1];
      r
  }

  /** categorize_product: the first bucket whose keyword occurs in the lower-cased title. */
  function Categorize(title: string): (r: string)
    ensures r in {"Consumer Products", "Technology", "Health & Safety", "Home & Garden"}
  {
    FirstBucket(Lower(title), Buckets).GetOr("Consumer Products")
  }

  /**
   * The buckets are consulted in table order and the first hit wins; a
   * title that mentions no keyword is a consumer product.
   */
  lemma CategorizeOrder(title: string)
    ensures var t := Lower(title);
      && (Categorize(title) == "Technology" <==> !Mentions(t, Buckets[0].1) && Mentions(t, Buckets[1].1))
      && (Categorize(title) == "Health & Safety" <==>
          !Mentions(t, Buckets[0].1) && !Mentions(t, Buckets[1].1) && Mentions(t, Buckets[2].1))
      && (Categorize(title) == "Home & Garden" <==>
          !Mentions(t, Buckets[0].1) && !Mentions(t, Buckets[1].1) && !Mentions(t, Buckets[2].1)
          && Mentions(t, Buckets[3].1))
      && (Categorize(title) == "Consumer Products" <==>
          Mentions(t, Buckets[0].1) || forall i :: 0 <= i < 4 ==> !Mentions(t, Buckets[i].1))
  {
    var t := Lower(title);
    var r := FirstBucket(t, Buckets);
    if r.Some? {
      var i :| 0 <= i < |Buckets| && Buckets[i].0 == r.value && Mentions(t, Buckets[i].1)
        && forall j :: 0 <= j < i ==> !Mentions(t, Buckets[j].1);
      assert 0 <= i < 4;
    }
  }

  /** The remedy wording: a refund mention wins over a replacement mention. */
  function Remedy(description: string): (r: string)
    ensures r == "Full refund available" <==> Contains(Lower(description), "refund")
    ensures r == "Free replacement available" <==>
      !Contains(Lower(description), "refund") && Contains(Lower(description), "replacement")
    ensures r == "Refund or replacement available" <==>
      !Contains(Lower(description), "refund") && !Contains(Lower(description), "replacement")
  {
    var d := Lower(description);
    if Contains(d, "refund") then "Full refund available"
    else if Contains(d, "replacement") then "Free replacement available"
    else "Refund or replacement available"
  }

  /** The record of one recall block; a block without a heading is skipped. */
  function RecallRecord(block: Block, hash: string -> Digest): (r: Option<Opportunity>)
    ensures r.None? <==> block.heading.None?
    ensures r.Some? ==>
      var title := block.heading.value;
      var url := ResolveLink(block.hrefs, Origin, ListingUrl);
      var description := block.paragraph.GetOr(DefaultDescription);
      && r.value.title == "Recall: " + title
      && r.value.id == hash(title + url)
      && r.value.url == url && r.value.detailsUrl == url
      && r.value.category == Some(Categorize(title))
      && r.value.amount == Remedy(description)
      && r.value.description == Truncate(description)
      && r.value.state == Some("Nationwide")
      && r.value.source == "cpsc.gov"
  {
    match block.heading
    case None => None
    case Some(title) =>
      var url := ResolveLink(block.hrefs, Origin, ListingUrl);
      var description := block.paragraph.GetOr(DefaultDescription);
      Some(Opportunity(
        id := hash(title + url),
        title := "Recall: " + title,
        category := Some(Categorize(title)),
        amount := Remedy(description),
        deadline := "Ongoing",
        difficulty := "Easy",
        description := Truncate(description),
        url := url,
        detailsUrl := url,
        state := Some("Nationwide"),
        urgency := "low",
        urgencyDays := 365,
        value := "good",
        featured := false,
        source := "cpsc.gov"))
  }

  /** What every CPSC record looks like. */
  predicate WellFormed(o: Opportunity) {
    && StartsWith(o.title, "Recall: ")
    && o.url == o.detailsUrl
    && |o.description| <= 203
    && o.category.Some?
    && o.source == "cpsc.gov"
    && o.deadline == "Ongoing"
    && o.urgencyDays == 365
  }

  lemma RecallRecordWellFormed(block: Block, hash: string -> Digest)
    requires RecallRecord(block, hash).Some?
    ensures WellFormed(RecallRecord(block, hash).value)
  {
  }

  /** The records of a run of blocks, in block order. */
  function Recalls(blocks: seq<Block>, hash: string -> Digest): (r: seq<Opportunity>)
    ensures |r| <= |blocks|
  {
    Kept(blocks, b => RecallRecord(b, hash))
  }

  /** Every record of a run is well formed. */
  lemma {:induction false} RecallsWellFormed(blocks: seq<Block>, hash: string -> Digest)
    ensures forall o :: o in Recalls(blocks, hash) ==> WellFormed(o)
  {
    if blocks != [] {
      var n := |blocks| - 1;
      RecallsWellFormed(blocks[..n], hash);
      KeptLast(blocks, b => RecallRecord(b, hash));
      if RecallRecord(blocks[n], hash).Some? {
        RecallRecordWellFormed(blocks[n], hash);
      }
    }
  }

  /** The headings of the blocks that have one, in block order. */
  function Headings(blocks: seq<Block>): seq<string> {
    Kept(blocks, (b: Block) => b.heading)
  }

  /** Each block with a heading contributes one record, titled after it, in block order. */
  lemma RecallsFollowHeadings(blocks: seq<Block>, hash: string -> Digest)
    ensures |Recalls(blocks, hash)| == |Headings(blocks)|
    ensures forall i :: 0 <= i < |Headings(blocks)| ==>
      Recalls(blocks, hash)[i].title == "Recall: " + Headings(blocks)[i]
  {
    KeptAlike(blocks, b => RecallRecord(b, hash), (b: Block) => b.heading,
              (o: Opportunity, h: string) => o.title == "Recall: " + h);
  }

  /** The blocks a scrape walks: the located blocks, capped at maxRecalls. */
  function Items(page: ListingPage, maxRecalls: int): seq<Block> {
    PyTake(LocateItems(page, maxRecalls, HasRecallPath), maxRecalls)
  }

  /** The records a scrape returns; a failed fetch yields none. */
  function ScrapeResult(fetched: Option<ListingPage>, maxRecalls: int, hash: string -> Digest): (r: seq<Opportunity>)
    ensures |r| <= if maxRecalls < 0 then |r| else maxRecalls
    ensures fetched.None? ==> r == []
    ensures forall o :: o in r ==> WellFormed(o)
  {
    match fetched
    case None => []
    case Some(page) =>
      RecallsWellFormed(Items(page, maxRecalls), hash);
      Recalls(Items(page, maxRecalls), hash)
  }

  /**
   * scrape: walks the items in order, skipping those without a heading.
   * `fetched` is the parsed listing page, or None when the request failed.
   */
  method Scrape(fetched: Option<ListingPage>, maxRecalls: int, hash: string -> Digest)
    returns (opportunities: seq<Opportunity>)
    ensures opportunities == ScrapeResult(fetched, maxRecalls, hash)
  {
    opportunities := [];
    if fetched.None? {
      return;
    }
    var items := Items(fetched.value, maxRecalls);
    for i := 0 to |items|
      invariant opportunities == Recalls(items[..i], hash)
    {
      assert items[..i + 1][..i] == items[..i];
      var item := items[i];
      if item.heading.None? {
        continue;
      }
      var o := RecallRecord(item, hash);
      opportunities := opportunities + [o.value];
    }
    assert items[..|items|] == items;
  }
}
