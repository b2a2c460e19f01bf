# eosguide-site core, modelled in Dafny

eosguide-site publishes a directory of money-back opportunities: class-action
settlements, FTC refund programs and CPSC product recalls. It has two halves.

- **Scrapers** (`scrapers/`). Three site scrapers turn listing pages into
  *opportunity* records:
  - TopClassActions settlements;
  - FTC refund programs;
  - CPSC recalls.

  A master scraper runs all three and isolates each one's failure. It removes
  duplicate titles and writes the combined list with a metadata summary.
- **Publishing scripts** (`scripts/`).
  - `publish_article.py` turns a GitHub issue form into an article page. In
    publish mode it also adds a card for the article to the articles index.
  - `prerender_homepage.py` sorts the opportunity records. It renders the first
    60 as cards between two markers in the homepage and fills the count badge.

The model keeps the decisions these programs make. These are:

- which blocks become records, and every field derived for each record;
- which links are followed, and in what order;
- which duplicate is kept;
- how the summary is counted;
- how issue sections, fields, bullet lists, numbered steps and Q/A pairs are parsed;
- where a page is written, and when the index gains a card;
- how text is escaped and URLs are normalised;
- how records are ordered;
- how the homepage regions and the badge are rewritten.

Fetched HTML is modelled as already-parsed values:

- `Block`, `PageLink` and `ListingPage` for the FTC and CPSC listings;
- `Option<string>` article links for TopClassActions listing pages;
- `DetailPage` and `Anchor` for a settlement page.

Regular expressions are written out as hand scanners in module `Patterns`.

Modules, one per file:

- `Wrappers`: Option/Result, and `Kept` (filter-map over a sequence).
- `Text`: Python string built-ins (`lower`, `strip`, `in`, `replace`, `split`, `join`, slicing).
- `Patterns`: the regular expressions.
- `Records`: the opportunity record and the field derivation the FTC and CPSC scrapers share.
- `Aggregate`: `master_scraper.py`.
- `Cpsc`, `Ftc`, `TopClassActions`: the three scrapers.
- `Publish`: `publish_article.py`.
- `Prerender`: `prerender_homepage.py`.

The loops listed below stay loops. Each such method is proved equal to a recursive specification function:

- `RemoveDuplicates` and `CountCategoriesAndStates`;
- each scraper's `Scrape`, and `CollectUrls`;
- `ParseIssue`, `ParseEligibility`, `ParseSteps` and `ReadFaqLines` (the loop of `ParseFaqs`).

What the source promises is then proved about those functions.

## Model

| member | source | states |
|---|---|---|
| Aggregate.RemoveDuplicates | scrapers/master_scraper.py:24-39 | the loop returns exactly the first-occurrence filter `Dedup` by stripped lower-cased title |
| Aggregate.KeyShape | scrapers/master_scraper.py:30-31 | a key has no ASCII capital, no whitespace at either end, and is the lower-cased title with only surrounding whitespace removed |
| Aggregate.KeyIgnoresCase | scrapers/master_scraper.py:30-31 | titles that differ only in letter case have the same key |
| Aggregate.DedupSpec | scrapers/master_scraper.py:24-39 | the result is a subsequence of the input, has pairwise distinct keys, covers every key of the input, keeps each key's first record, and deduplicating again changes nothing |
| Aggregate.DedupKeys | scrapers/master_scraper.py:30-37 | the set of title keys is unchanged by deduplication |
| Aggregate.DedupDistinct | scrapers/master_scraper.py:30-37 | no two kept records share a title key |
| Aggregate.DedupSubsequence | scrapers/master_scraper.py:30-37 | kept records appear in their original order |
| Aggregate.DedupKeepsFirst | scrapers/master_scraper.py:30-37 | each kept record is the first record in the input with its key |
| Aggregate.DedupOfDistinct | scrapers/master_scraper.py:30-37 | a list whose keys are already distinct is returned unchanged |
| Aggregate.DedupConcat | scrapers/master_scraper.py:99-128 | deduplicating a concatenation keeps the keys of both parts, and earlier parts win for shared keys |
| Aggregate.TallyCounts | scrapers/master_scraper.py:64-70 | a value is a key of the tally iff some record has it, and its count is its number of occurrences |
| Aggregate.TallySum | scrapers/master_scraper.py:64-70 | the counts of a tally sum to the number of records |
| Aggregate.OccurrencesArePositions | scrapers/master_scraper.py:55-57 | counting one item at a time gives the number of positions holding the value |
| Aggregate.CountSource | scrapers/master_scraper.py:55-57 | the count is exactly the number of positions whose record has that source, so never more than the records |
| Aggregate.CountCategoriesAndStates | scrapers/master_scraper.py:64-70 | the loop builds exactly the category and state tallies, with "Other"/"Unknown" for missing values |
| Aggregate.SaveOpportunities | scrapers/master_scraper.py:42-81 | the written output is the deduplicated list with its metadata summary |
| Aggregate.SummaryConsistent | scrapers/master_scraper.py:42-81 | total equals the list length; category and state counts each sum to the total; missing values are counted under "Other"/"Unknown"; each source count is at most the total |
| Aggregate.RunAllScrapers | scrapers/master_scraper.py:84-160 | nothing is written iff all scrapers together returned no record; otherwise the summary of the concatenated results in scraper order |
| Aggregate.FailureIsolation | scrapers/master_scraper.py:110-118 | when the FTC scraper raises, the output still carries every key from the other two, with TopClassActions records winning |
| Records.FallbackBlocks | scrapers/cpsc_recalls_scraper.py:38-39 | at most max blocks and no more than the links; every block is the parent of some link matching the pattern |
| Records.FallbackStartsAtFirstMatch | scrapers/cpsc_recalls_scraper.py:38-39 | when max is positive, the parent of the first matching link heads the fallback blocks |
| Records.MatchingSkips | scrapers/cpsc_recalls_scraper.py:38 | the matching links start with the first link the pattern accepts |
| Records.LocateItems | scrapers/ftc_refunds_scraper.py:34-40 | class matches are used when there are any, otherwise the link-parent fallback |
| Records.Truncate | scrapers/cpsc_recalls_scraper.py:83 | descriptions up to 200 characters are kept; longer ones become their first 200 characters plus "..." |
| Records.ResolveLink | scrapers/cpsc_recalls_scraper.py:54-57 | a root-relative href gets the site origin, another href is kept, and no href gives the listing URL |
| Patterns.FtcAmountAt | scrapers/ftc_refunds_scraper.py:68 | a match exists iff the text starts with '$' and a digit or comma, and it is a prefix of the text |
| Patterns.Search | scrapers/ftc_refunds_scraper.py:68 | a result exists iff the pattern matches at some position, and it is the match at the leftmost such position |
| Patterns.FigureLength | scrapers/ftc_refunds_scraper.py:68 | the figure is non-empty iff '$' is followed by a digit or comma |
| Patterns.FigureExtent | scrapers/ftc_refunds_scraper.py:68 | the figure is '$', the whole run of digits and commas, and '.' with two digits when they follow |
| Patterns.FtcAmountExtent | scrapers/ftc_refunds_scraper.py:68 | the FTC match is the figure, all the whitespace after it, and the scale word when one follows |
| Patterns.TcaAmountAt | scrapers/topclassactions_scraper.py:71 | a match exists iff the text starts with '$' and a digit or comma; it is a prefix with no trailing whitespace |
| Patterns.TcaAmountExtent | scrapers/topclassactions_scraper.py:71 | the TopClassActions match is the figure with whitespace and scale word when a scale word follows, else the figure alone |
| Patterns.AmountPatternsDiffer | scrapers/ftc_refunds_scraper.py:68-69 | on "$5 off" the FTC pattern keeps the trailing space and the TopClassActions pattern does not |
| Patterns.AmountPatternsAgreeOnScale | scrapers/topclassactions_scraper.py:71-73 | both patterns capture "$2.50 Million" whole |
| Patterns.FigureWithCents | scrapers/topclassactions_scraper.py:71-73 | the figure part of "$2.50 Million" is "$2.50" |
| Patterns.MillionIsScale | scrapers/topclassactions_scraper.py:71 | "Million" with a capital is accepted as a scale word |
| Patterns.ScaleIgnoresCase | scrapers/topclassactions_scraper.py:71 | a text starts with a scale word iff its lower-cased form does |
| Patterns.DateAt | scrapers/topclassactions_scraper.py:66 | a match is a prefix of the text in m/d/yyyy form with 1-2 digit month and day |
| Patterns.DateAtFindsDate | scrapers/topclassactions_scraper.py:66 | a text that starts with a date in that form matches, and the match is that date |
| Patterns.DeadlineAt | scrapers/topclassactions_scraper.py:66 | a match is a date in m/d/yyyy form |
| Patterns.DeadlineNeedsKeyword | scrapers/topclassactions_scraper.py:66 | a match needs "deadline" or "file by" in any case, then one or more colons or whitespace characters |
| Patterns.DeadlineAfterKeyword | scrapers/topclassactions_scraper.py:66 | after the keyword and its whole run of separators, the match is the date found there, if any |
| Patterns.RecallPathAnywhere | scrapers/cpsc_recalls_scraper.py:38 | a recall path is found wherever it occurs in the href, whatever text surrounds it |
| Patterns.StepTextAt | scripts/publish_article.py:67 | a line has step text iff it is digits, '.', whitespace, then text, and the result is that text |
| Cpsc.FirstBucket | scrapers/cpsc_recalls_scraper.py:108-123 | the first table entry whose keywords occur, or none iff none occur |
| Cpsc.Categorize | scrapers/cpsc_recalls_scraper.py:108-123 | the category is one of the four buckets |
| Cpsc.CategorizeOrder | scrapers/cpsc_recalls_scraper.py:108-123 | each category holds iff its keywords match and no earlier bucket's do; "Consumer Products" also when nothing matches |
| Cpsc.Remedy | scrapers/cpsc_recalls_scraper.py:64-68 | "refund" wins over "replacement", and neither gives the combined text |
| Cpsc.RecallRecord | scrapers/cpsc_recalls_scraper.py:47-92 | a block without a heading is skipped; otherwise every field of the recall record |
| Cpsc.RecallRecordWellFormed | scrapers/cpsc_recalls_scraper.py:76-92 | every recall record has the "Recall: " title, the same URL twice, a description of at most 203 characters, a category, "Ongoing" and 365 days |
| Cpsc.RecallsWellFormed | scrapers/cpsc_recalls_scraper.py:44-94 | every record produced from a block list is well formed |
| Cpsc.RecallsFollowHeadings | scrapers/cpsc_recalls_scraper.py:44-94 | one record per heading, in order, titled "Recall: " plus that heading |
| Cpsc.ScrapeResult | scrapers/cpsc_recalls_scraper.py:15-105 | at most max_recalls records, none when the fetch fails, all well formed |
| Cpsc.Scrape | scrapers/cpsc_recalls_scraper.py:15-105 | the loop returns exactly the specified result |
| Ftc.Amount | scrapers/ftc_refunds_scraper.py:68-69 | "Varies" iff the pattern matches nowhere, otherwise the match at the leftmost position where it matches |
| Ftc.RelevanceIgnoresCase | scrapers/ftc_refunds_scraper.py:54 | the relevance test gives the same answer on the lower-cased title |
| Ftc.RefundRecord | scrapers/ftc_refunds_scraper.py:47-90 | a record exists iff the block has a relevant heading, with every field derived |
| Ftc.RefundRecordWellFormed | scrapers/ftc_refunds_scraper.py:74-90 | every refund record has the "FTC: " title over a relevant heading, an amount, one URL and 90 days |
| Ftc.RefundsWellFormed | scrapers/ftc_refunds_scraper.py:44-92 | every record produced from a block list is well formed |
| Ftc.RefundsFollowRelevantHeadings | scrapers/ftc_refunds_scraper.py:47-55 | one record per relevant heading, in order, titled "FTC: " plus that heading |
| Ftc.ScrapeResult | scrapers/ftc_refunds_scraper.py:15-104 | at most max_programs records, none when the fetch fails, all well formed |
| Ftc.Scrape | scrapers/ftc_refunds_scraper.py:15-104 | the loop returns exactly the specified result |
| TopClassActions.DaysLeft | scrapers/topclassactions_scraper.py:15-24 | days until the deadline clamped at 0, or 999 when it cannot be parsed |
| TopClassActions.DaysLeftSentinelAmbiguous | scrapers/topclassactions_scraper.py:15-24 | a deadline exactly 999 days away and an unparseable one get the same value |
| TopClassActions.ExtractClaimUrl | scrapers/topclassactions_scraper.py:27-45 | the href of the first off-site anchor on a claim domain with claim wording, none iff there is no such anchor |
| TopClassActions.ClaimUrlOffSite | scrapers/topclassactions_scraper.py:36-43 | an extracted claim URL is never on topclassactions.com and names a claim site |
| TopClassActions.Amount | scrapers/topclassactions_scraper.py:71-73 | "Varies" iff the pattern matches nowhere, otherwise the match at the leftmost position where it matches, with no trailing space |
| TopClassActions.Deadline | scrapers/topclassactions_scraper.py:66-68 | a date exists iff the deadline pattern matches somewhere, and it is the date of the leftmost match |
| TopClassActions.SettlementRecord | scrapers/topclassactions_scraper.py:48-101 | a record iff the page was fetched; title, id, claim or fallback URL, "TBD"/999 without a deadline, clamped days with one |
| TopClassActions.PagesToScrape | scrapers/topclassactions_scraper.py:116 | between 1 and 5 pages; 5 from 80 upward; below that, the page after the floor of max/20 |
| TopClassActions.PagesNotCeiling | scrapers/topclassactions_scraper.py:116 | 20 requested settlements read 2 pages, 0 read 1, 40 read 3 |
| TopClassActions.ListingUrl | scrapers/topclassactions_scraper.py:122-125 | page 1 is the base URL; a later page starts with base + "page/" and ends in "/" |
| TopClassActions.ListingUrlPage | scrapers/topclassactions_scraper.py:122-125 | a later page's URL holds, between "page/" and the final "/", only digits, and they spell the page number |
| TopClassActions.ListingUrlDistinct | scrapers/topclassactions_scraper.py:122-125 | different page numbers from 1 on give different listing URLs |
| TopClassActions.AddLink | scrapers/topclassactions_scraper.py:137-141 | a link is appended iff it is a settlement link not yet collected |
| TopClassActions.AddLinks | scrapers/topclassactions_scraper.py:136-141 | collected URLs stay distinct settlement links and only grow |
| TopClassActions.CollectFrom | scrapers/topclassactions_scraper.py:120-156 | following pages keeps the URLs distinct settlement links and extends the earlier ones |
| TopClassActions.SettlementUrls | scrapers/topclassactions_scraper.py:120-159 | the collected URLs are distinct settlement links, at most max_settlements |
| TopClassActions.Settlements | scrapers/topclassactions_scraper.py:165-178 | at most one record per URL, each with its URL as details link |
| TopClassActions.SettlementsDistinct | scrapers/topclassactions_scraper.py:165-178 | distinct URLs give records with distinct details links |
| TopClassActions.ScrapeResult | scrapers/topclassactions_scraper.py:104-182 | at most max_settlements records with distinct settlement details links and non-negative days |
| TopClassActions.CollectUrls | scrapers/topclassactions_scraper.py:120-156 | the page loop returns exactly the specified URL list, including the early stop and the break on a failed page |
| TopClassActions.Scrape | scrapers/topclassactions_scraper.py:104-182 | the loops return exactly the specified result |
| Publish.Sections | scripts/publish_article.py:31 | at least one section, and no section contains a newline-###-whitespace break |
| Publish.SectionsRejoin | scripts/publish_article.py:31 | putting the breaks back between the sections gives "\n" + body; every break is "\n###" and whitespace, and no later section starts with whitespace |
| Publish.SplitFromRejoins | scripts/publish_article.py:31 | the pieces and the breaks interleaved give back the text from the piece start |
| Publish.SplitFromGreedy | scripts/publish_article.py:31 | each break takes all the whitespace after "###" |
| Publish.SplitFromNoBreak | scripts/publish_article.py:31 | no piece contains a break |
| Publish.Entry | scripts/publish_article.py:33-38 | a section yields a label/value pair iff it is not blank |
| Publish.EntryFirstLine | scripts/publish_article.py:35-37 | the label is the stripped section's first line, stripped and lower-cased; the value is everything after that line, stripped ("" without a second line) |
| Publish.EntryLabelShape | scripts/publish_article.py:35-36 | a label contains no newline, no ASCII capital and no surrounding whitespace |
| Publish.FieldsKeys | scripts/publish_article.py:32-38 | a label is a field iff some non-blank section carries it |
| Publish.FieldsLastWins | scripts/publish_article.py:32-38 | a repeated label keeps its last section's value |
| Publish.ParseIssue | scripts/publish_article.py:29-39 | the loop builds exactly the specified field map |
| Publish.FirstAnswer | scripts/publish_article.py:42-47 | empty iff no label has a real answer |
| Publish.GetField | scripts/publish_article.py:42-47 | empty iff every label is missing, blank or "_No response_" |
| Publish.FirstAnswerIsFirstGiven | scripts/publish_article.py:43-46 | a non-empty answer belongs to the first label that has a real answer |
| Publish.BulletItem | scripts/publish_article.py:56 | a cleaned bullet has no surrounding whitespace |
| Publish.NonEmptyInOrder | scripts/publish_article.py:56-59 | the kept items appear in line order among the cleaned lines |
| Publish.NonEmptyCount | scripts/publish_article.py:56-59 | there is one item per line whose cleaned text is non-empty |
| Publish.NonEmptyKeepsAll | scripts/publish_article.py:56-59 | every non-empty cleaned line is among the items |
| Publish.Bullets | scripts/publish_article.py:54-60 | every item is non-empty and trimmed, and there are at most as many items as lines |
| Publish.NonEmptyItems | scripts/publish_article.py:55-59 | every kept item is trimmed at both ends |
| Publish.ParseEligibility | scripts/publish_article.py:54-60 | the loop returns exactly the specified items |
| Publish.StepOf | scripts/publish_article.py:66-69 | a stripped line yields a step iff it is in "N. text" form, and the step is that text stripped |
| Publish.StepsHaveStepForm | scripts/publish_article.py:63-70 | every parsed step comes from a line in step form |
| Publish.StepsComplete | scripts/publish_article.py:65-69 | every line in step form yields a step that is among the results |
| Publish.PresentFromOrigins | scripts/publish_article.py:65-69 | the k-th step is the step of the k-th step-form line, one step per such line |
| Publish.OriginsInOrder | scripts/publish_article.py:65-69 | the step-form lines are taken in line order and none is missed |
| Publish.ParseSteps | scripts/publish_article.py:63-70 | the loop returns exactly the specified steps |
| Publish.FaqsInQuestionOrder | scripts/publish_article.py:73-90 | every FAQ has a non-empty question, and the questions follow the asking order |
| Publish.UnansweredDropped | scripts/publish_article.py:79-83 | a trailing question with no answer adds no FAQ |
| Publish.PreambleDiscarded | scripts/publish_article.py:77-86 | lines before the first question do not change the FAQs |
| Publish.FaqStepCases | scripts/publish_article.py:79-86 | the four line kinds: question, answer under a question, other text, blank |
| Publish.ReadFaqLine | scripts/publish_article.py:78-86 | one loop step updates question, answer lines and FAQs as specified |
| Publish.ReadFaqLines | scripts/publish_article.py:77-87 | the loop leaves exactly the state of the line-by-line state machine |
| Publish.ParseFaqs | scripts/publish_article.py:73-90 | the loop returns exactly the specified FAQ list |
| Publish.IsMonetizationOn | scripts/publish_article.py:93-94 | on iff the lower-cased text contains "[x]" |
| Publish.DeadlineTable | scripts/publish_article.py:220-270 | absent iff all three dates are empty; one row per date, two for opt-out, never an empty date |
| Publish.BenefitCards | scripts/publish_article.py:181-217 | absent iff all four amounts are empty; one card per non-empty amount |
| Publish.DeadlineText | scripts/publish_article.py:828 | empty iff the deadline is empty or "none listed", otherwise it shows the deadline |
| Publish.Card | scripts/publish_article.py:829-837 | the new card links to /articles/slug.html |
| Publish.AddCardLinks | scripts/publish_article.py:839-843 | an existing link or a missing marker leaves the index unchanged; otherwise the result contains the link |
| Publish.UpdateIndexKeeps | scripts/publish_article.py:839-843 | an index that already links the article, or has no marker, is left unchanged |
| Publish.UpdateIndexLinks | scripts/publish_article.py:843 | an index with the marker gains a link to the article |
| Publish.UpdateIndexIdempotent | scripts/publish_article.py:820-845 | updating the index twice gives the same index as once |
| Publish.PublishTarget | scripts/publish_article.py:888-900 | fails iff title or slug is empty; "publish" writes to articles/ and updates the index, any other mode writes a draft |
| Publish.MainTarget | scripts/publish_article.py:856-900 | fails iff the issue has no article title or URL slug answer |
| Publish.DefaultIsDraft | scripts/publish_article.py:892-900 | with no MODE set, the page goes to articles/drafts/ and the index is left alone |
| Prerender.Safe | scripts/prerender_homepage.py:14-15 | a missing value is ""; the result has no surrounding whitespace and is the value with only surrounding whitespace removed |
| Prerender.SafeIdempotent | scripts/prerender_homepage.py:14-15 | applying safe to its own output changes nothing |
| Text.StripInfix | scripts/prerender_homepage.py:14-15 | strip removes whitespace from the two ends of the text and nothing else |
| Text.NatToStringValue | scripts/prerender_homepage.py:137 | the decimal text of a count spells that count back |
| Prerender.EscapeEach | scripts/prerender_homepage.py:35-42 | escaped text has no '<', '>' or '"' |
| Prerender.EscapeHtml | scripts/prerender_homepage.py:35-42 | the chain of four replacements equals per-character escaping |
| Prerender.EscapePlain | scripts/prerender_homepage.py:35-42 | text without special characters is unchanged |
| Prerender.EscapedAmpersands | scripts/prerender_homepage.py:35-42 | every '&' in escaped text begins an entity, so nothing is double-escaped |
| Prerender.UnescapeEscape | scripts/prerender_homepage.py:35-42 | escaping is lossless: unescaping recovers the text |
| Prerender.NormalizeUrl | scripts/prerender_homepage.py:59-67 | a non-empty result is root-relative; article links end in .html; other local paths are unchanged |
| Prerender.ArticlePage | scripts/prerender_homepage.py:66-67 | an /articles/ link ends in .html, and one that already does is kept |
| Prerender.SiteArticleLink | scripts/prerender_homepage.py:59-67 | an absolute site article link becomes /articles/slug.html |
| Prerender.SiteRemovalIsSinglePass | scripts/prerender_homepage.py:60-61 | a URL in which removing the site name rejoins it still contains the site name after normalisation |
| Prerender.ShownOr | scripts/prerender_homepage.py:55-57 | the escaped value, or the fallback when it is blank |
| Prerender.DeadlineShown | scripts/prerender_homepage.py:69-70 | "Not listed" when the deadline cannot be formatted, otherwise the escaped date |
| Prerender.CardOf | scripts/prerender_homepage.py:52-70 | each displayed field is the escaped safe value when it is not blank, else dash/"Other"; the deadline is the escaped formatted date or "Not listed"; the normalised, escaped link |
| Prerender.SortKeyOf | scripts/prerender_homepage.py:112-117 | featured records rank 0 and others 1; the days left when known, 10^9 days otherwise; the lower-cased safe title |
| Prerender.KeyLeTotal | scripts/prerender_homepage.py:112-119 | any two sort keys are comparable |
| Prerender.KeyLeTrans | scripts/prerender_homepage.py:112-119 | the key order is transitive |
| Prerender.InsertSorted | scripts/prerender_homepage.py:119 | inserting into a sorted list keeps it sorted |
| Prerender.SortBy | scripts/prerender_homepage.py:119 | sorting keeps the same records (a permutation) |
| Prerender.SortBySorted | scripts/prerender_homepage.py:119 | the sorted list is ordered by the key |
| Prerender.FeaturedFirst | scripts/prerender_homepage.py:112-119 | featured records come first, then the nearest deadline within each group, all records kept |
| Prerender.RenderedComeFirst | scripts/prerender_homepage.py:119-122 | at most 60 records are shown, and none sorts after one that is left out |
| Prerender.Find | scripts/prerender_homepage.py:131 | the first occurrence of the end marker, or none iff there is none |
| Prerender.RegionsWithoutStart | scripts/prerender_homepage.py:131-132 | a page without the start marker is unchanged |
| Prerender.FirstRegion | scripts/prerender_homepage.py:131-132 | text before the first start marker is kept, and the shortest region to the end marker is replaced |
| Prerender.SpanAt | scripts/prerender_homepage.py:135-140 | a badge match is a span opening with the count id, text without '<', and a closing span |
| Prerender.NoMatchUnchanged | scripts/prerender_homepage.py:135-140 | without a match the page is unchanged |
| Prerender.OnlyFirstMatch | scripts/prerender_homepage.py:135-140 | only the first match has its text replaced; everything else is kept |
| Prerender.NoBadgeUnchanged | scripts/prerender_homepage.py:135-140 | a page without the count badge keeps its text |
| Prerender.PrerenderPage | scripts/prerender_homepage.py:104-143 | succeeds iff the data file exists, is an array and both markers are present; reports total and min(total, 60) rendered; the error messages |
| Prerender.PageHtml | scripts/prerender_homepage.py:130-140 | with both markers the page is the cards substitution followed by the badge fill with the number of records |
| Prerender.CardsFillRegion | scripts/prerender_homepage.py:124-132 | the text before the first START is kept and the region up to the nearest END becomes START, newline, the first 60 sorted cards joined by newlines, newline, END |
| Prerender.BadgeShowsTotal | scripts/prerender_homepage.py:134-140 | the first count badge's text becomes "(" + the number of records in the file + ")"; the rest of the page is kept |
| Prerender.NoBadgeKeepsBody | scripts/prerender_homepage.py:134-140 | without a count badge the page is just the cards substitution |
| Prerender.BadgeFirst | scripts/prerender_homepage.py:134-140 | the leftmost badge, and only it, gets the new text |
| Prerender.StagesDisagree | scripts/prerender_homepage.py:108-110 | the object the master scraper writes is always rejected by the prerender step |

## Left out

- HTTP fetching, timeouts and BeautifulSoup parsing are outside the model. Fetched pages are parameters: `Option<ListingPage>`, a listing-URL to page function, and a detail-URL to page function.
- Python's `re` engine is not modelled. Each pattern the code uses is a hand-written scanner.
- MD5 is the parameter `hash`, whose result type is 12 lower-case hex characters. MD5 itself is not computed.
- The clock and date parsing (`datetime.now`, `strptime`) are parameters. These are `daysUntil`, `daysLeft` and `formatDate`.
- Politeness pauses (`time.sleep`) are left out. So are `print` progress output, `sys.exit`, the `ISSUE_BODY_PATH` environment variable and file reads and writes. `MODE` is the parameter `mode`.
- Page, card and index HTML templates are outside the model:
  - `build_page`, `build_sidebar` and the section builders;
  - the FAQ JSON-LD schema;
  - the monetization block;
  - markdown rendering;
  - the homepage card markup, which is a `render` parameter.
- Deadline rows and benefit cards are modelled as values, not HTML.
- Lower-casing, case-insensitive matching and `\d` cover ASCII only. The source's Unicode behaviour is not modelled.
- `re.sub` reads backslashes in a replacement template. The model inserts the cards and the count literally.
- JSON values other than strings for record fields are not modelled. `featured` is a boolean rather than any truthy value.
- The per-item `try/except` inside the scraper loops is not modelled. The model's record derivation cannot fail.
- SpanAt: states only that a match has the badge's shape, not that every such span is found.
- The TopClassActions page count follows the code, `min(5, max // 20 + 1)`, rather than a ceiling of max/20 ("~20 settlements per page"). `PagesNotCeiling` records the code's values at 0, 20 and 40.
- Site-name removal in `NormalizeUrl` is the single-pass `str.replace` of the code. `SiteRemovalIsSinglePass` shows a URL where this leaves the site name in place.
- The master scraper writes an object with `opportunities` and `metadata`, while the prerender step requires a bare array. The model follows both programs as written, and `StagesDisagree` records that they do not fit together.
- `update_index` is modelled as its string transformation. The existence check on the index file and the file write are not modelled.
- Sorting is modelled by insertion sort and proved to order and permute. Stability of Python's `sorted` among equal keys is not stated.
