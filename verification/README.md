# WebFind, verified

A Dafny model of the parts of WebFind whose correctness does not depend on the network: the crawl graph and its
PageRank, the on-disk PageRank cache, the polite bulk crawler, the dependency graph, the sparse-vector codec, the lexical
index and search engine, the background worker, live ingestion, rank fusion, text wrapping and counting, and the proxy
pool. One module per component; `dafny verify dfyconfig.toml` checks all of it.

- **Graph and ranks.** `CrawlGraph` keeps the two edge indexes of the in-memory store and proves them equivalent to one
  flat list of recorded edges. On top of it `Traversal` is exact breadth-first search (`Hops` and `LevelSearch` hold the
  theory of hop counts and levels), and `PageRank`, `RankLoops` and `PageRankTheory` show that the sparse loops compute
  the dense iteration, with an exact mass balance, monotone growth and geometric convergence. `RankEquation` shows that
  the rank equation always has exactly one solution, that every iteration converges to it, and where it moves when the
  graph changes; `PageRankIncremental` says which URLs the incremental form re-ranks and when it converges to that solution.
- **Protocols.** `PageRankCache` and `BackgroundWorker` are state machines; their theorems hold for every interleaving
  of any number of callers.
- **Crawler.** `BulkCrawler` is the crawl loop as a class over an arbitrary web; `CrawlQueues` holds the queues, the log
  of requests and what each step keeps of them.
- **Dependency graph.** `DepGraph` and `ShortestPath`: k-hop neighbourhoods, and the path walked back from Dijkstra's
  distances.
- **Index and search.** `SparseCodec`, `LexicalIndex`, `SearchEngine`, `Cosine`, `RankFusion`, with `Ordering` for sorting.
- **The rest.** `LiveIngest`, `WordWrap`, `Occurrences`, `ProxyPool`, `Cidr`, with `Sums` and `Division` below them.

Methods mirror the loops of the source and are proved against a specification function or an outright property; lemmas
then prove what that specification promises. Numbers that are floats in the source are reals here, and a step that is one
lock-protected block in the source is one atomic step.

## Where the code does not keep what is said of it

Each of these is modelled as the code has it, with a concrete input that shows it and the exact condition under which the
promise holds.

- The incremental PageRank is documented to re-rank dependents of a changed URL but walks incoming edges
  (`src/engine/crawl_graph.rs:425`): `PageRankIncremental.SuccessorNeverCorrected`. It converges as documented after new
  edges exactly when what is downstream of them happens to be affected: `PageRankIncremental.AddedEdgesConvergeIff`, and
  more generally `PageRankIncremental.ConvergesIff`. An affected link source that is no node gets a score and feeds it on:
  `PageRankIncremental.UnknownSourceDrifts`; handed in again, that score goes on feeding even where the source is not
  affected: `PageRankIncremental.ResultFedBackDrifts`. The same conditions cover both.
- `shortest_path` indexes the distance map with every in-neighbour (`src/engine/dep_graph.rs:286`) and panics on one
  that the search has not reached: `ShortestPath.UnreachableNeighborPanics`, `ShortestPath.NeverPanicsIff`.
- The crawl loop's comment says it takes the most relevant entry; its comparison takes the least relevant one
  (`src/engine/bulk_crawler.rs:468`): `BulkCrawler.LessRelevantIsPicked`, `BulkCrawler.PickIsMostRelevantIff`.
- The crawl loop is said to fetch only URLs that the store does not have as crawled (`src/engine/bulk_crawler.rs:486`).
  But whatever is taken up is recorded anew as not crawled (lines 411-445, 593-604, 821-843), so a known page that the
  site's map names or a page links to is fetched again: `BulkCrawler.KnownPageIsRequested`. A call that ends with empty
  queues spares what was known before it exactly when it takes none of it up: `CrawlQueues.KnownAreSparedIff`. Of a site
  map that fits into the budget it fetches exactly what this crawler has not requested before and robots.txt allows
  (or was waiting already), known or not: `BulkCrawler.BulkDomainCrawler.MappedIsRequestedIff`. A known seed is spared unless it is mapped or linked:
  `BulkCrawler.BulkDomainCrawler.Prepare`. And a page that an earlier call fetched loses its crawled flag when the map
  names it again, for good as far as this crawler goes, which requests no URL twice:
  `BulkCrawler.BulkDomainCrawler.CrawlWithLimit`.
- The crawler is documented to respect Crawl-delay (`src/engine/bulk_crawler.rs:149`), but a pending backoff replaces the
  delay instead of adding to it (lines 700-706): `CrawlQueues.BackoffUndercutsCrawlDelay`, `CrawlQueues.SpacingKeptIff`.
- A sitemap or llms.txt URL of another host is queued under the seed's domain but removed from its own, so it is picked
  again: `BulkCrawler.ForeignEntryIsPickedAgain`, `CrawlQueues.DequeueRemovesIff`. Without a store it is requested again;
  with one it is known as crawled after its fetch, and the loop then skips it for ever:
  `BulkCrawler.BulkDomainCrawler.Spin`.
- `decode_sparse` is documented to reject truncated blobs and disagreeing counts, yet a term blob cut inside its first
  four bytes reads as an empty list (`SparseCodec.CutBlobReadsEmpty`, `SparseCodec.CutHeaderIsNoEncoding`) and surplus
  weights are accepted (`SparseCodec.SurplusWeightAccepted`, `SparseCodec.WeightsAcceptedIff`).
- A proxy's cooldown ends, but its failure count does not, so the proxy stays unavailable:
  `ProxyPool.CooldownNeverEnds`, `ProxyPool.WaitingHelpsIff`.
- A random proxy address is documented to lie within the CIDR block, but the offset is added to the address with its host
  bits: `Cidr.DrawsOutsideItsBlock`, `Cidr.AlwaysInBlockIff`, `Cidr.AlwaysHostIff`.

## Model

| member | source | states |
|---|---|---|
| CrawlGraph.InMemoryCrawlGraph.RecordUrl | src/engine/crawl_graph.rs:499-502 | exactly one node is inserted or replaced, no edge changes, the 64-bit version moves on by one and wraps |
| CrawlGraph.InMemoryCrawlGraph.RecordLink | src/engine/crawl_graph.rs:504-511 | both edge indexes go on describing one and the same list of recorded edges, which gains this edge |
| CrawlGraph.InMemoryCrawlGraph.GraphVersion | src/engine/crawl_graph.rs:486-544 | the version handed out is the number of changes so far, from one and modulo 2^64: the token that the cache protocol is stated with |
| CrawlGraph.InMemoryCrawlGraph.GetUrls | src/engine/crawl_graph.rs:517-519 | every recorded node once and nothing else, whatever the map's iteration order |
| CrawlGraph.InMemoryCrawlGraph.GetLinksFrom | src/engine/crawl_graph.rs:521-526 | reading the outgoing index is filtering the recorded edges by source, in recording order |
| CrawlGraph.InMemoryCrawlGraph.GetLinksTo | src/engine/crawl_graph.rs:528-533 | reading the incoming index is filtering the recorded edges by target, in recording order |
| CrawlGraph.InMemoryCrawlGraph.GetAllLinks | src/engine/crawl_graph.rs:535-540 | flattening one index gives the multiset of all recorded edges, duplicates included |
| Traversal.TraverseWithDepth | src/engine/crawl_graph.rs:202-254 | exactly the URLs within max_depth hops in the chosen direction over the recorded edges, each once with its true shortest hop count, sorted by depth and then URL |
| Traversal.ResultIsDetermined | src/engine/crawl_graph.rs:245-253 | the sorted result does not depend on the iteration order of the depth map |
| Hops.ReachesIsWalk | src/engine/crawl_graph.rs:202-254 | being within n hops is the same as having a walk of n edges, so distances are those of real walks |
| LevelSearch.ExploredExactly | src/engine/crawl_graph.rs:216-243 | once the level loop has run for max_depth levels or has found an empty one, the depth map is the map of all distances up to max_depth |
| PageRank.ComputePagerank | src/engine/crawl_graph.rs:315-366 | no nodes give no scores; otherwise the sparse loops over nodes with incoming edges return exactly as many rounds as asked for, one for none, of the dense synchronous iteration from the base vector over the recorded graph |
| PageRank.SparseIsDense | src/engine/crawl_graph.rs:334-363 | for any edge list, leaving out the nodes without incoming edges changes no score in any number of rounds |
| PageRank.ScoresBounded | src/engine/crawl_graph.rs:315-366 | with 0 <= damping < 1 and duplicate edges, dangling nodes and unknown endpoints allowed, every score is at least (1-damping)/n and at most 1 and all of them sum to at most 1 - damping^(t+1) |
| PageRank.RoundBalance | src/engine/crawl_graph.rs:345-363 | the exact account of a round: the new total is the fresh mass plus the damped old total minus what leaks at each node |
| PageRankTheory.Conservation | src/engine/crawl_graph.rs:345-363 | double counting: what all nodes receive plus what leaks through dangling nodes and unknown endpoints is the damped total |
| PageRankTheory.LeakExactly | src/engine/crawl_graph.rs:323-343 | a node leaks nothing if and only if it has an outgoing edge and all its edges end in known nodes |
| PageRank.TotalExactlyWhenTight | src/engine/crawl_graph.rs:315-366 | the bound on the total is met if and only if no node leaks |
| PageRank.Monotone | src/engine/crawl_graph.rs:334-363 | from the base vector no score ever decreases from one round to the next |
| PageRank.GeometricConvergence | src/engine/crawl_graph.rs:334-363 | round t+1 moves all scores together by at most damping^(t+1) * (1 - damping) |
| PageRank.IterateContracts | src/engine/crawl_graph.rs:345-363 | two runs of the update from any two starts come closer by damping^rounds in total absolute difference |
| PageRank.LimitIndependentOfStart | src/engine/crawl_graph.rs:334-343 | the iteration approaches any solution of the rank equation by damping^rounds, whatever scores it starts from |
| RankEquation.SolutionExists | src/engine/crawl_graph.rs:345-363 | for every graph, every set of active URLs and every start the rank equation on the active URLs has a solution |
| RankEquation.SolutionUnique | src/engine/crawl_graph.rs:345-363 | and only one |
| RankEquation.RanksUnique | src/engine/crawl_graph.rs:345-363 | the rank equation of a graph has exactly one solution, its ranks |
| RankEquation.RankConverges | src/engine/crawl_graph.rs:334-363 | from any start the rounds get and stay as close to the ranks as one likes, so starting at the base instead of 1/n changes nothing in the limit, and the limit exists |
| RankEquation.DenseConverges | src/engine/crawl_graph.rs:315-366 | for every eps there is a number of rounds from which on the scores of the full computation are within eps of the ranks in total |
| RankEquation.ResponsePositive | src/engine/crawl_graph.rs:345-363 | a change of one sign moves the solution at every node downstream of it |
| RankEquation.ResponseStaysDownstream | src/engine/crawl_graph.rs:345-363 | and no change moves it anywhere else |
| PageRank.FixedPointUnique | src/engine/crawl_graph.rs:345-363 | the rank equation has at most one solution |
| PageRankTheory.IteratePermute | src/engine/crawl_graph.rs:323-332 | scores depend on the multiset of edges only, not on the order in which the store lists them |
| RankLoops.IndexEdges | src/engine/crawl_graph.rs:323-332 | the loop over all edges builds, for every URL, its list of sources with repetitions and its out-degree |
| RankLoops.Rounds | src/engine/crawl_graph.rs:345-363 | the nested loops compute the synchronous update of exactly the active nodes, as many times as asked for and once for none |
| PageRankIncremental.AffectedUrls | src/engine/crawl_graph.rs:404-434 | the queue search finds exactly the URLs within the hop limit of a changed URL against the direction of the edges, with their distances |
| PageRankIncremental.ComputePagerankIncremental | src/engine/crawl_graph.rs:382-457 | the result is the ordinary update iterated over the affected URLs only, as many times as asked for and once for none, from the previous scores with new nodes at the base |
| PageRankIncremental.OutsideUnchanged | src/engine/crawl_graph.rs:436-456 | no URL outside the affected set changes its score, in any number of rounds |
| PageRankIncremental.ConsistentUnchanged | src/engine/crawl_graph.rs:436-456 | scores that satisfy the rank equation at the affected URLs come out as they went in |
| PageRankIncremental.ConvergesIff | src/engine/crawl_graph.rs:368-456 | when the scores handed in miss the rank equation at the nodes on one side only, the incremental form converges to the ranks if and only if every node downstream of a node at which they miss it is affected and no URL that is not a node, affected or with a score handed in, feeds an affected node |
| PageRankIncremental.AddedEdgesConvergeIff | src/engine/crawl_graph.rs:368-456 | the documented use: after edges are added from nodes that had none, to a graph whose ranks are at hand, it converges to the new ranks if and only if every node downstream of the new edges' targets is affected and no stray URL feeds an affected node |
| PageRankIncremental.AddedEdgesRecover | src/engine/crawl_graph.rs:368-456 | after edges are added from any nodes it converges to the new ranks when every node downstream of what the edges' sources link to, by old or new edges, is affected and no stray URL feeds an affected node |
| PageRankIncremental.RecoversWhenEnclosed | src/engine/crawl_graph.rs:368-456 | whatever changed, it converges when every node downstream of a set that holds all nodes at which the scores handed in miss the rank equation is affected and no stray URL feeds an affected node |
| PageRankIncremental.ErrorsCanCancel | src/engine/crawl_graph.rs:436-456 | without one-sidedness that condition is not needed: a concrete graph on which errors of both signs cancel |
| PageRankIncremental.ConvergesIffRightOutside | src/engine/crawl_graph.rs:404-456 | for any affected set and any non-negative scores handed in, URLs that are no nodes included in both, it converges if and only if the scores handed in equal the ranks at the nodes outside the set and no stray URL feeds an affected node |
| PageRankIncremental.UnknownSourceDrifts | src/engine/crawl_graph.rs:421-456 | a concrete graph in which a link source that is no node is affected, gets a score and lifts its target from one half to three quarters for good |
| PageRankIncremental.ResultFedBackDrifts | src/engine/crawl_graph.rs:436-456 | the result of such a call, handed in again with only the target affected, stays as it is, three quarters included: the stray score feeds on |
| PageRankIncremental.SuccessorNeverCorrected | src/engine/crawl_graph.rs:368-434 | a concrete graph in which adding a link to b leaves the score of b's successor wrong for ever, for every hop limit and number of rounds |
| PageRankCache.FilesNeverCorrupt | src/engine/pagerank_cache.rs:32-111 | in every interleaving, interruptions and I/O errors included, the cache file is absent or complete, at most one caller is in the critical section and no caller ever reads a corrupt file |
| PageRankCache.FailedByIo | src/engine/pagerank_cache.rs:53-111 | after any run, a call that has failed had an I/O operation of its own fail, and no later step began another call |
| PageRankCache.EveryCallReturns | src/engine/pagerank_cache.rs:53-111 | from every reachable state every call under way can return within eighteen steps of its own and of the holder of the lock, so the lock is granted and no call blocks another for good |
| PageRankCache.OwnRunEnds | src/engine/pagerank_cache.rs:53-111 | in whatever order and with whatever the store lists, a call takes no more than eleven steps of its own |
| PageRankCache.ReturnsAlone | src/engine/pagerank_cache.rs:53-111 | a call that goes on alone returns the file's scores and leaves the file when it is of the version read, and otherwise returns the scores for all that is recorded, which are in the file afterwards |
| PageRankCache.WrittenIsRead | src/engine/pagerank_cache.rs:53-84 | after any run, what is recorded before a call begins is in the view that the call returns, and it can return |
| PageRankCache.InterruptsRelease | src/engine/pagerank_cache.rs:53-111 | a failed I/O operation fails the call and dropping a call ends it; both leave the cache file alone and give the lock back |
| PageRankCache.RankRecords | src/engine/pagerank_cache.rs:75 | what a call computes on a miss is what compute_pagerank returns for a store that holds the records of the view |
| PageRankCache.ResultIsFresh | src/engine/pagerank_cache.rs:53-84 | in every interleaving of callers and writers, what a call returns reflects every record operation that completed before it began, on the hit and the miss paths, and nothing that was never recorded |
| PageRankCache.EveryRecordIsRanked | src/engine/pagerank_cache.rs:53-84 | so every URL recorded before the call has a score and every such link was among those ranked |
| PageRankCache.StepKeepsInv | src/engine/pagerank_cache.rs:53-111 | the protocol's invariant is kept by every step of every caller and writer |
| BulkCrawler.BulkDomainCrawler.CrawlWithLimit | src/engine/bulk_crawler.rs:317-667 | with external links ignored and links and map entries of the page's own domain the loop terminates; over all calls no URL is requested twice, every request went out in its slot by the delays and backoffs that the log itself gives, and each domain's seen set stays within max_pages; every URL ever taken up still waits or was requested; what the call takes up is in scope and allowed by robots.txt; all start URLs and all admissible links of every page got are dealt with; whatever waits or was requested waited before, is the seed at depth 0 or a mapped URL at its path depth, or is linked by a page fetched earlier in the call at one level less and within the maximum depth; every answer came from the web; it returns the pages that came back, in request order, and then either the queues are empty or there are enough pages and no entry within min_depth waits, or it returns an error that a proxy or client failure caused; and afterwards the store has as crawled exactly the pages the call fetched and what it had before without the site's map and without what the call took up; each request went out under a session with requests left, not too old and without three failures in a row, nor one whose last answer was a failure while a proxy can be had, and once limit pages are in nothing is requested unless an entry within min_depth was waiting |
| BulkCrawler.BulkDomainCrawler.CrawlFor | src/engine/bulk_crawler.rs:317-667 | the same guarantees at every point of a run with no assumption about links or maps, external links followed or not, and the same three ways to end; only that no URL is requested twice, and what the store has as crawled, need URLs taken up under their own domain |
| BulkCrawler.BulkDomainCrawler.CallSpaces | src/engine/bulk_crawler.rs:504-525 | in any run two consecutive requests to a domain are at least the delay, 1/rps and the crawl-delay of the robots policy in force apart, or the later one waited for the end of a backoff that a failed or invalid answer of the domain had entered |
| BulkCrawler.BulkDomainCrawler.CompleteCrawl | src/engine/bulk_crawler.rs:454-667 | a call that ends with empty queues has explored its site: every in-scope link of every page within the depth, internal or followed to another domain, was requested, is disallowed, or found its domain's budget used up |
| BulkCrawler.BulkDomainCrawler.LinkTrail | src/engine/bulk_crawler.rs:578-623 | every request of a call was reached, from a start of the call or from what was waiting, by as many links as it is levels deeper, and a URL reached by a link is requested within the maximum depth only |
| BulkCrawler.BulkDomainCrawler.CauseStep | src/engine/bulk_crawler.rs:454-667 | one pass keeps it so that every waiting entry and every request has a cause: left over, a start, or a link of a page fetched in the call one level up |
| BulkCrawler.ChainIsCut | src/engine/bulk_crawler.rs:454-667 | with a configured depth of one, on a site whose root links to a, a to b and b to c, the root and a are requested and nothing else |
| BulkCrawler.BulkDomainCrawler.MappedIsRequestedIff | src/engine/bulk_crawler.rs:404-501 | a call that ends with empty queues requests a URL of a site map that fits into the budget if and only if this crawler has not requested it before and robots.txt allows it or it was waiting already; that the store had it as crawled does not matter |
| BulkCrawler.KnownPageIsRequested | src/engine/bulk_crawler.rs:404-501 | a crawler over a store that has one page as crawled, on a site whose map names that page, requests it |
| CrawlQueues.KnownAreSparedIff | src/engine/bulk_crawler.rs:486-501 | a call that ends with empty queues requests no URL that the store had as crawled before it if and only if it takes none of them up |
| CrawlQueues.RequestedIff | src/engine/bulk_crawler.rs:454-525 | with empty queues the requests of a call are for exactly the URLs taken up by then and not requested earlier |
| CrawlQueues.RequestsWithinBudget | src/engine/bulk_crawler.rs:686-692 | over all calls a domain gets no more requests than it has seen URLs, so at most max_pages |
| BulkCrawler.BulkDomainCrawler.Iterate | src/engine/bulk_crawler.rs:454-667 | one pass keeps the invariants; it skips the picked entry if and only if the store knows it as crawled, which is never the case while URLs are taken up under their own domain, and then the page had been fetched by this crawler; otherwise it logs at most one request, for that entry, asked for no earlier than the pass began, kept to the crawl-delay in force and with its page's links dealt with; of the store's crawled flags exactly that of the fetched page is set and those of newly taken up URLs fall; with external links ignored the measure (unseen capacity, then queue length) shrinks unless the queues are empty or an error ends the call |
| BulkCrawler.BulkDomainCrawler.SkipCrawled | src/engine/bulk_crawler.rs:486-501 | an entry is dropped only if the store has it as crawled, and of what is taken up the store has as crawled only pages that this crawler fetched |
| BulkCrawler.DroppingIsProgress | src/engine/bulk_crawler.rs:489-501 | an entry dropped from its own domain's queue waits nowhere any more and the measure shrinks, so skipping cannot go on for ever there |
| BulkCrawler.BulkDomainCrawler.Send | src/engine/bulk_crawler.rs:504-568 | waits for the slot, takes a session, requests and counts: the invariants hold again, the log has one request more and the measure is smaller; or it is an error that a proxy or client failure caused, and the log is unchanged |
| BulkCrawler.BulkDomainCrawler.Visit | src/engine/bulk_crawler.rs:503-667 | a pass that may not skip uses its entry up, whether the request fails or succeeds; its outcome is the answer that was logged, in its slot by the log before it; a fetched page is marked as crawled, and of the other flags exactly those of newly taken up URLs fall |
| BulkCrawler.BulkDomainCrawler.FollowLinks | src/engine/bulk_crawler.rs:578-642 | afterwards every in-scope link within the depth is taken up, disallowed or beyond the budget, under its right domain; nothing but the page's links is taken up, and what is queued is queued one level deeper than the page and with the link's relevance, three tenths of it for another domain; exactly what is taken up is known as crawled no longer; a page at the last depth changes nothing |
| BulkCrawler.BulkDomainCrawler.FollowLink | src/engine/bulk_crawler.rs:590-604 | one link is taken up if it is allowed, new and within the budget; a URL's crawled flag survives if and only if it is not newly taken up |
| BulkCrawler.BulkDomainCrawler.TakeRequest | src/engine/bulk_crawler.rs:515-555 | the entry leaves its queue, the domain is stamped, the counters move by one, a failed or invalid answer enters a backoff of the length that the log gives unless in deep mode, and the request is logged with its times, the crawl-delay in force and its answer |
| BulkCrawler.BulkDomainCrawler.EnqueueUrl | src/engine/bulk_crawler.rs:669-694 | a URL is taken up exactly when robots allow it, it is new and the domain has room; nothing else changes |
| BulkCrawler.BulkDomainCrawler.SelectNext | src/engine/bulk_crawler.rs:463-483 | the pick is one that no waiting entry beats in the code's comparison; none means all queues are empty |
| BulkCrawler.PickIff | src/engine/bulk_crawler.rs:463-483 | an entry can be picked if and only if every other waiting entry is more relevant, or as relevant and no shallower |
| BulkCrawler.PickIsMostRelevantIff | src/engine/bulk_crawler.rs:461-473 | the pick is the most relevant entry, as the comment says, if and only if all waiting entries are equally relevant |
| BulkCrawler.LessRelevantIsPicked | src/engine/bulk_crawler.rs:461-473 | two concrete entries of relevance 0.1 and 0.9: the only possible pick is the one of 0.1 |
| BulkCrawler.ForeignEntryIsPickedAgain | src/engine/bulk_crawler.rs:484-568 | an entry of another host queued under the seed's domain is picked again after its request, and once it is known as crawled the loop is stalled |
| BulkCrawler.BulkDomainCrawler.Spin | src/engine/bulk_crawler.rs:484-501 | from a stalled state every pass skips an entry and changes neither queues, log nor store, for any number of passes |
| BulkCrawler.BulkDomainCrawler.WaitForSlot | src/engine/bulk_crawler.rs:696-731 | after the wait the backoff that was pending when it began is over or, if none was, the last request lies at least max(delay, 1/rps, robots delay) back; and it has slept no longer than needed for that, not at all when the slot was free |
| CrawlQueues.BackoffBounds | src/engine/bulk_crawler.rs:805-819 | a backoff lasts between 1 and 60 seconds, doubles with each unmatched failure up to that, and is 60 exactly from six unmatched failures on |
| CrawlQueues.BackoffHasCause | src/engine/bulk_crawler.rs:547-554 | a pending backoff is that of the latest failed or invalid answer of the domain, and there is none in deep mode |
| CrawlQueues.ConsecutiveRequests | src/engine/bulk_crawler.rs:696-731 | of two consecutive requests to a domain in a paced log the later is at least the required spacing after the earlier, or waited for the end of a backoff, 1 to 60 seconds long, that an earlier failed or invalid answer of the domain had entered |
| CrawlQueues.SpacingKeptIff | src/engine/bulk_crawler.rs:696-731 | the required spacing, and with it the robots crawl-delay, is kept by every request time that the rate limit allows if and only if no backoff is pending when the wait begins, or one that ends no earlier |
| CrawlQueues.BackoffUndercutsCrawlDelay | src/engine/bulk_crawler.rs:700-721 | with a crawl-delay of ten seconds and an answer that failed at once, a paced log has the next request after two seconds |
| BulkCrawler.BulkDomainCrawler.RotateIfNeeded | src/engine/bulk_crawler.rs:556-568 | a valid answer under a session that may go on changes nothing; otherwise at most a fresh session is put in place |
| BulkCrawler.BulkDomainCrawler.SessionForDomain | src/engine/bulk_crawler.rs:733-744 | a session that need not rotate is kept, otherwise a fresh one is put in place; the session handed out has requests left, so none serves more than its quota |
| BulkCrawler.BulkDomainCrawler.RotateSession | src/engine/bulk_crawler.rs:746-775 | the domain gets a fresh session and nothing else changes; without a proxy nothing does |
| BulkCrawler.BulkDomainCrawler.EffectiveScope | src/engine/bulk_crawler.rs:338-361 | the depth derived from a site's map is the deepest mapped path, kept within 1 and 20, and only when there is a map |
| BulkCrawler.BulkDomainCrawler.Prepare | src/engine/bulk_crawler.rs:371-448 | the robots policy is set, every sitemap and llms.txt URL and the seed, unless already crawled, is taken up, disallowed or beyond the budget, and if the map fits into the budget every allowed URL of it is taken up; what is queued is the seed at depth 0 and mapped URLs at their path depth, or 1 with manual depth, those of llms.txt at a relevance of 0.9 at least; nothing outside the scope is taken up, and nothing but the map and a seed not known as crawled; of the URLs known as crawled exactly the mapped ones are known no longer |
| CrawlQueues.EnqueueKeeps | src/engine/bulk_crawler.rs:669-694 | enqueueing keeps queues duplicate-free and within the seen set, and entries under their own domain |
| CrawlQueues.DequeueKeeps | src/engine/bulk_crawler.rs:486-523 | so does removing an entry |
| CrawlQueues.DequeueRemovesIff | src/engine/bulk_crawler.rs:484-523 | removal by the URL's own domain gets the URL out of all queues if and only if no other domain queues it |
| CrawlQueues.DequeueKeepsAccount | src/engine/bulk_crawler.rs:486-525 | an entry that leaves a queue is accounted for by its request, so no URL is lost |
| CrawlQueues.TakenStays | src/engine/bulk_crawler.rs:669-694 | what was dealt with stays so while seen sets only grow and policies stand |
| CrawlQueues.RequestKeepsLog | src/engine/bulk_crawler.rs:504-555 | a request in its slot by the recorded state, with what its answer does to it, keeps state and log in step: last request, counters and backoff are those of the log, and the log stays paced |
| CrawlQueues.RequestKeeps | src/engine/bulk_crawler.rs:515-525 | a request for an entry just removed keeps the log free of repeated URLs |
| DepGraph.KeyInjective | src/engine/dep_graph.rs:97-110 | the string keys of two different nodes differ |
| DepGraph.DependencyGraph.GetOrCreateNode | src/engine/dep_graph.rs:97-110 | a known node keeps its index, a new one is appended; nothing else changes |
| DepGraph.DependencyGraph.AddEdge | src/engine/dep_graph.rs:112-127 | one edge between the two nodes is appended; no node is lost and none but these two is added |
| DepGraph.DependencyGraph.NodesDistinct | src/engine/dep_graph.rs:97-110 | no node is ever stored twice |
| DepGraph.DependencyGraph.Neighborhood | src/engine/dep_graph.rs:213-256 | exactly the nodes at 1 to k hops in the chosen direction, each once, nearest first, whatever order edges are listed in; an unknown seed gives nothing |
| ShortestPath.ShortestPath | src/engine/dep_graph.rs:261-303 | given positive weights and Dijkstra's guarantee for its distances, the walk back terminates and either returns a real path from source to target whose weights sum to the target's distance and are minimal among all paths, or reports truthfully an unknown node, no path, or a panic |
| ShortestPath.NoShorterPath | src/engine/dep_graph.rs:266-272 | no path to the target is shorter than its distance, and there is none when it has no distance |
| ShortestPath.WalkedIsPath | src/engine/dep_graph.rs:273-295 | a completed walk back is a path of exactly the target's distance |
| ShortestPath.NeverStuck | src/engine/dep_graph.rs:281-295 | a walked node other than the source always has a predecessor to go on to, so the loop's early exit is never taken |
| ShortestPath.NeverPanicsIff | src/engine/dep_graph.rs:282-287 | no listing order of edges makes the walk panic if and only if every node on a shortest path, the source aside, has in-neighbours with a distance only |
| ShortestPath.PanicOrder | src/engine/dep_graph.rs:282-287 | from any unsafe graph a listing order is constructed under which the walk panics |
| ShortestPath.UnreachableNeighborPanics | src/engine/dep_graph.rs:282-287 | a concrete graph of three nodes with a shortest path on which the walk panics |
| SparseCodec.EncodeSparse | src/engine/bm25_index.rs:252-266 | succeeds exactly when the counts and lengths fit in 32 bits, and writes the length-prefixed layout |
| SparseCodec.DecodeSparse | src/engine/bm25_index.rs:274-315 | returns a list exactly when the blobs read as that list, fails when they read as none, and reads nothing out of bounds; they read as a list when they begin with its layout, and a term blob under four bytes reads as the empty list |
| SparseCodec.RoundTrip | src/engine/bm25_index.rs:252-315 | decoding an encoded list gives that list and no other |
| SparseCodec.DecodesUnique | src/engine/bm25_index.rs:274-315 | two blobs decode to at most one list |
| SparseCodec.ReEncodes | src/engine/bm25_index.rs:252-315 | blobs that decode without trailing bytes are the encoding of what they decode to |
| SparseCodec.TermsPrefixFree | src/engine/bm25_index.rs:252-266 | no term blob properly begins another |
| SparseCodec.CutTermsRejected | src/engine/bm25_index.rs:291-303 | every proper prefix of at least four bytes of a term blob is rejected, whatever the weights |
| SparseCodec.CutWeightsRejected | src/engine/bm25_index.rs:304-306 | every proper prefix of a weight blob is rejected |
| SparseCodec.CutHeaderIsNoEncoding | src/engine/bm25_index.rs:276-278 | a term blob cut inside its header is the encoding of no list, yet reads as the empty list and no other, whatever the weights |
| SparseCodec.CutBlobReadsEmpty | src/engine/bm25_index.rs:270-278 | the nine-byte term blob of the one-term list, cut to two bytes, reads as no terms |
| SparseCodec.WeightsAcceptedIff | src/engine/bm25_index.rs:270-306 | the terms of a list are accepted with a weight blob if and only if it has at least four bytes a term: of the count disagreements only too few weights are rejected |
| SparseCodec.SurplusWeightAccepted | src/engine/bm25_index.rs:270-306 | no term and one weight are accepted |
| SparseCodec.LeRoundTrip | src/engine/bm25_index.rs:257-261 | four little-endian bytes give back every 32-bit number |
| SparseCodec.TextIsValid | src/engine/bm25_index.rs:298-303 | the UTF-8 encoding of every list of Unicode scalar values is accepted as a term |
| SparseCodec.ValidIsText | src/engine/bm25_index.rs:298-303 | and no other bytes are |
| LexicalIndex.Bm25Index.Upsert | src/engine/bm25_index.rs:128-133 | one document is replaced or added, and scorer, embeddings and texts go on agreeing |
| LexicalIndex.Bm25Index.Remove | src/engine/bm25_index.rs:143-147 | the document leaves all three maps and no other does |
| LexicalIndex.Bm25Index.Refit | src/engine/bm25_index.rs:210-233 | no document is lost and every stored embedding is at the newly fitted length; the index's own embedder keeps its length; an empty index changes nothing |
| LexicalIndex.Bm25Index.Search | src/engine/bm25_index.rs:155-171 | the first limit entries of the ranking of all documents that share a token with the query, which is embedded at the index's own length |
| LexicalIndex.RankingUnique | src/engine/bm25_index.rs:164-168 | ties are broken, so searching twice gives the same list in whatever order the scorer lists its matches |
| Ordering.StringLessIff | src/engine/bm25_index.rs:164-168 | the order of the tie break is that of the first character in which the ids differ, a proper beginning coming first |
| LexicalIndex.RankingDistinct | src/engine/bm25_index.rs:155-171 | no document is ranked twice |
| LexicalIndex.Bm25Index.EmbeddingOf | src/engine/bm25_index.rs:179-204 | every pair is the first term of the document's own text with its hash and a stored weight of that hash, exactly the hashes of no term are dropped, and nothing is reordered |
| SearchEngine.InMemorySearchEngine.IndexOne | src/engine/search_engine.rs:105-131 | a valid document is indexed whole or, when the embedder fails, not at all; the embedder is given title and excerpt, or the URL of an untitled document; an invalid one changes nothing; documents and lexical index agree afterwards |
| SearchEngine.InMemorySearchEngine.IndexBatch | src/engine/search_engine.rs:133-172 | the valid documents are appended in order and counted, or nothing changes when the embedder fails; every stored embedding is then at the refitted length |
| SearchEngine.InMemorySearchEngine.SearchBm25 | src/engine/search_engine.rs:174-231 | no hit is dropped, each result is the latest document with that URL, whose title and body are the text that was scored, and ranks run from 1 to the number of hits |
| SearchEngine.TextsAreLatest | src/engine/search_engine.rs:89-95 | the ids of the lexical index are exactly the document URLs and each text is title, blank and body of the latest document with the URL, or the body of an untitled one |
| SearchEngine.TextTellsBody | src/engine/search_engine.rs:89-95 | under one title, different bodies give different indexed texts |
| SearchEngine.HitIsDocument | src/engine/search_engine.rs:180-188 | every id of the lexical index is found among the documents, in the version whose text the index holds |
| SearchEngine.StoredIsLatest | src/engine/search_engine.rs:153-158 | after a batch a URL has the vector of its latest document in the batch, any other URL its old one |
| Cosine.CosineInRange | src/engine/search_engine.rs:308-320 | with the floored norms the similarity lies in [-1, 1] for vectors of any, even different, lengths, zero vectors included |
| Cosine.CauchySchwarz | src/engine/search_engine.rs:308-313 | the dot product over a common prefix is bounded by the square sums of that prefix |
| Cosine.CosineSymmetric | src/engine/search_engine.rs:308-313 | exchanging query and document changes nothing |
| Cosine.CosineSelf | src/engine/search_engine.rs:308-320 | a vector has similarity 1 with itself if and only if its norm is not below the floor |
| Cosine.CosineSelfIsOne | src/engine/search_engine.rs:308-320 | so a vector with a coordinate at or above the floor has similarity 1 with itself |
| Cosine.CosineNegated | src/engine/search_engine.rs:308-320 | negating a vector negates its similarity |
| BackgroundWorker.ChannelIsFaithful | src/engine/bg_worker.rs:32-67 | in every interleaving the channel stays within its capacity, the jobs taken up so far are the first of the jobs sent, in order and each once, and all of them or all but the last are done |
| BackgroundWorker.CloseDrains | src/engine/bg_worker.rs:32-77 | when a close has returned, the worker is over and exactly the jobs whose persist returned Ok were processed to their end, each once and in send order |
| BackgroundWorker.EndsAfterSenders | src/engine/bg_worker.rs:39-46 | the worker ends only after a close has taken the sender, every taken sender was dropped and every clone was used |
| BackgroundWorker.OpenNeverFails | src/engine/bg_worker.rs:48-67 | no persist fails before some close has begun |
| BackgroundWorker.LatePersistFails | src/engine/bg_worker.rs:55-76 | a persist that comes after the sender was taken never succeeds and its job is never processed |
| BackgroundWorker.EarlyPersistNeverFails | src/engine/bg_worker.rs:55-76 | a persist that locked the sender in time never fails, however close and the worker go on |
| BackgroundWorker.EveryRunEnds | src/engine/bg_worker.rs:32-77 | no run has more effective steps than the measure of the state it starts from, in whatever order they come |
| BackgroundWorker.RunsAreShort | src/engine/bg_worker.rs:32-77 | so all calls and the worker together take at most five steps for each persist, four for each close and one |
| BackgroundWorker.NeverDeadlocks | src/engine/bg_worker.rs:32-77 | when nothing can move any more, every persist and close has returned and the queue is empty |
| LiveIngest.IngestFusedHits | src/engine/live_ingest.rs:88-171 | the loop over the store does exactly what the pass specification says, edges untouched |
| LiveIngest.PassIsExact | src/engine/live_ingest.rs:88-171 | said of the hits alone: the pass takes all hits, or those up to the next one above the floor after 25 candidates; duplicates are the variants of an earlier hit above the floor, failures the unfetchable ones and the refused jobs, enqueued jobs the new nodes whose job was answered Ok; new nodes are live-search nodes with the hit's score, old ones have the higher priority of the two, all others are as before |
| LiveIngest.CountersAgree | src/engine/live_ingest.rs:93-160 | candidates are the recorded plus the already present nodes and at most 25; every hit that reaches the store is above the floor, http(s), and the only one with its canonical URL |
| LiveIngest.EveryHitCounted | src/engine/live_ingest.rs:60-160 | every hit is accounted for in the report, or is below the floor or after the cap; a failed enqueue is counted in addition |
| LiveIngest.NodesGrow | src/engine/live_ingest.rs:122-150 | no node is lost, priorities only rise, other fields are kept, new nodes come from stored hits |
| LiveIngest.IngestTwice | src/engine/live_ingest.rs:88-171 | a second pass over the same hits leaves every node as it is, records none, enqueues no job and meets the same candidates and duplicates |
| RankFusion.RrfKeywordScores | src/engine/relevance.rs:101-110 | the nested loops give an entry to exactly the documents that appear, with the sum of 1/(k+rank+1) over their positions |
| RankFusion.MassConserved | src/engine/relevance.rs:101-110 | all scores together are the sum of the contributions of all positions of all lists |
| RankFusion.AgreementWinsIff | src/engine/relevance.rs:101-110 | on duplicate-free lists a document at ranks within a limit in two lists strictly beats every document of one list only if and only if the limit is below k + 1, so up to zero-based rank 60 for k = 60 |
| WordWrap.Wrap | src/render.rs:395-420 | the lines of the text, one empty line for no words, and no wrapping has fewer lines |
| WordWrap.FillWraps | src/render.rs:395-420 | all words are kept in order and only a line with a single word can exceed the width |
| WordWrap.FillIff | src/render.rs:395-409 | the greedy lines are the one wrapping in which no line could have taken the first word of the next |
| WordWrap.StaysAhead | src/render.rs:399-409 | against every wrapping obeying that rule the greedy one has fewer lines, or as many and a last line with no more words |
| WordWrap.WrapAgain | src/render.rs:395-420 | splitting the wrapped rows gives the very words of the text, so wrapping again gives the same lines |
| WordWrap.AnySpacingSplits | src/render.rs:399 | however the words of a text are spaced by white space, splitting it gives the words |
| WordWrap.ByteLenIsUtf8 | src/render.rs:400 | the length that counts is the number of bytes of the UTF-8 encoding |
| Occurrences.CountOccurrences | src/commands/search.rs:220-244 | terminates with the largest number of pairwise disjoint occurrences of the normalised needle in the normalised haystack, and 0 for a needle that normalises to nothing |
| Occurrences.SeparatorsVanish | src/commands/search.rs:221-226 | characters that are not alphanumeric make no difference wherever they stand |
| Occurrences.CaseVanishes | src/commands/search.rs:221-226 | strings that agree place by place in what is alphanumeric and in its lower case count alike |
| Occurrences.NormaliseAt | src/commands/search.rs:221-226 | each alphanumeric character contributes its lower case in its place, and no other contributes anything |
| Occurrences.NumberIsFound | src/commands/search.rs:213-244 | the keyword cve20243094 occurs once in CVE-2024-3094 |
| Occurrences.PositiveIffContained | src/commands/search.rs:234-242 | the count is positive if and only if the haystack contains the needle |
| ProxyPool.ProxyPool.Add | src/engine/proxy_pool.rs:248-259 | an endpoint with a known id is replaced in its place, a new one appended; ids stay distinct |
| ProxyPool.ProxyPool.Record | src/engine/proxy_pool.rs:351-407 | a report reaches the endpoint with that id and nothing else |
| ProxyPool.ReplayRemembers | src/engine/proxy_pool.rs:351-407 | after any history of reports the totals count its successes and failures, time and latency are those of the latest success, and the cooldown is five minutes from the latest failure that was at least the third in a row |
| ProxyPool.ProxyPool.Select | src/engine/proxy_pool.rs:283-339 | an endpoint is selected exactly when one is available and it is an available one, by the strategy's rule; only round robin moves the counter |
| ProxyPool.Walk | src/engine/proxy_pool.rs:315-330 | the weighted walk ends at the endpoint whose share of the total covers the drawn amount; its fallback is never needed |
| ProxyPool.CoverUnique | src/engine/proxy_pool.rs:315-330 | no drawn amount selects two endpoints |
| ProxyPool.ChosenInProportion | src/engine/proxy_pool.rs:315-330 | the draws from (0, 1) that select an endpoint are an interval as long as the endpoint's part of the total score |
| ProxyPool.TotalPositive | src/engine/proxy_pool.rs:309-313 | available endpoints have a positive total score, so the random fallback is not taken |
| ProxyPool.ProxyPool.SelectInTurn | src/engine/proxy_pool.rs:283-308 | over any run of selections, at times at which the same endpoints are available, each available endpoint is returned its whole number of turns or one more, and exactly as often in whole rounds |
| ProxyPool.RoundRobinIsFair | src/engine/proxy_pool.rs:304-308 | the same for the places that the counter points to |
| ProxyPool.WaitingHelpsIff | src/engine/proxy_pool.rs:135-148 | after any history of reports waiting makes an endpoint available if and only if it was not banned and had fewer than three failures since its last success |
| ProxyPool.AvailableIff | src/engine/proxy_pool.rs:135-148 | after any history an endpoint is available if and only if it was never banned, had fewer than three failures since its last success, and the cooldown of the latest third failure in a row is over |
| ProxyPool.FreshScores | src/engine/proxy_pool.rs:150-175 | a healthy endpoint without a measured latency scores 1, 0.9, 0.85 or 0.6 by its type |
| ProxyPool.TypesOrdered | src/engine/proxy_pool.rs:150-175 | health being equal, residential endpoints score above those of an ISP, these above mobile ones and these above datacenters, down to the least score |
| ProxyPool.SlowerScoresLess | src/engine/proxy_pool.rs:150-175 | a slower endpoint never scores higher: each millisecond up to half a second costs a thousandth |
| ProxyPool.FailuresScoreLess | src/engine/proxy_pool.rs:150-175 | nor does one with more failures: each costs 0.15 |
| ProxyPool.CooldownNeverEnds | src/engine/proxy_pool.rs:351-371 | after three failures in a row an endpoint is unavailable at every later time, although its cooldown ends |
| Cidr.GenerateIps | src/engine/proxy_server.rs:154-169 | exactly the host addresses of the block, each once and in ascending order, for prefixes 1 to 30; an error for longer ones and a shift overflow for prefix 0 |
| Cidr.AlwaysInBlockIff | src/engine/proxy_pool.rs:97-111 | every random address drawn lies in the block if and only if the host bits of the given address leave room for the largest offset; never for a prefix of 32, and only from the network address for one of 31 |
| Cidr.DrawsOutsideItsBlock | src/engine/proxy_pool.rs:97-111 | for 10.0.0.6 with a prefix of 30 the addresses drawn are the block's broadcast address and one of the next block |
| Cidr.AlwaysHostIff | src/engine/proxy_pool.rs:97-111 | every random address drawn is a host of the block if and only if the network address itself was given |

## Left out

- PageRankCache.ResultIsFresh: assumes fewer than 2^64 record operations, because the version counter wraps and a cache entry could then be taken for current; iterations and damping are fixed, as the cache key is the version only, and the cache file starts out absent.
- PageRankIncremental.ConvergesIff: assumes that no score handed in for a URL that is not a node is negative, as no score of a computation is. It is exact for scores that miss the rank equation on one side only, which adding edges from dangling nodes always does (`AddedEdgesConvergeIff`); for errors of both signs the same walk is sufficient (`RecoversWhenEnclosed`) but, as errors can cancel (`ErrorsCanCancel`), not necessary, and the exact form then names the ranks (`ConvergesIffRightOutside`). The same holds of edges added from nodes that had some (`AddedEdgesRecover`).
- BulkCrawler.BulkDomainCrawler.CrawlWithLimit: that no URL is requested twice, and termination, assume that links a page calls internal and URLs of the site's map have the domain they are queued under, and termination that external links are ignored; `ForeignEntryIsPickedAgain` shows that the first is needed. The store is changed by this crawler only, and what waits was recorded when it was taken up; that an entry marked by somebody else would be dropped for good is `DroppingIsProgress`. Two crawl calls on clones running at once are not modelled.
- BackgroundWorker.CloseDrains: takes process_job to return and close not to be cancelled while it awaits; what process_job stores, and the job statuses it sets, are not part of this model.
- DepGraph.DependencyGraph.Neighborhood: the order in which petgraph lists the edges of a node is a parameter; the same holds for `ShortestPath`, and Dijkstra's distances enter as a certificate.
- LexicalIndex.Bm25Index.Search: embedding, scoring, fitting and tokenizing by the bm25 crate are arbitrary functions, so nothing is said about which document deserves which score.
- SearchEngine.InMemorySearchEngine.IndexOne: one call at a time; two calls for one URL at once could leave the lexical text of one and the document of the other. The fields of a result that are only copied are one field here.
- RankFusion.RrfKeywordScores: assumes k > -1, where no contribution divides by zero.
- ProxyPool.RoundRobinIsFair: stated up to the wrap of the counter at 2^64, and while the same endpoints are available.
- ProxyPool.ProxyPool.Select: availability is read at one instant; the code reads the clock once per endpoint. Poisoned locks do not occur.
- Cidr.GenerateIps: addresses are numbers below 2^32, with masking written as taking off a remainder; the parsing of the CIDR text is not part of this model.
- LiveIngest.IngestFusedHits: canonical form, scheme and domain of a URL are arbitrary functions; the time and the answers of the job queue are arbitrary per hit.
- WordWrap.Wrap: lengths are UTF-8 lengths and white space is the Unicode property, both written out; strings are sequences of Unicode scalar values.
- Occurrences.CountOccurrences: positions count characters, not bytes, which is the same for matches in UTF-8; the Unicode tables are parameters.
- Float rounding, NaN and infinities: scores, distances and times are reals.
- HTTP, Chromium, sockets, tunnelling, robots.txt and sitemap parsing: the crawler sees an arbitrary web.
- Turso and libSQL storage, SQL text, migrations and the query log: the engine is not visible from this code.
- URL parsing, canonicalisation, the fusion in web_index and the ranking funnel: arbitrary functions where they are needed at all.
- merge_live_results, relax_query and the display normalisation: sorting, truncation and clamping of a list, which would add easy members only; its quarantine gate does not cover the store hits that fill a sparse result.
- bm25_tf, bm25f_score and min_max_normalise: closed formulas with one-line bounds.
- parse_tree ids, the centrality, component and topological-sort wrappers around petgraph, search_vector's truncation, CLI, configuration and lookup tables.
