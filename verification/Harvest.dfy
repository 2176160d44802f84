/**
 The arXiv harvest loop: `harvest_query` of `scripts/bulk_ingest_arxiv.py`, against an
 arbitrary server, and against a server that pages a stable feed with errors and empty pages.
 */
module Harvest {
  import opened Wrappers

  const BATCH_SIZE := 200
  const EMPTY_PAGE_RETRIES := 3
  const ARXIV_DEEP_PAGE_LIMIT := 10000

  datatype Paper = Paper(id: string, body: string)

  datatype Response =
    | Failed                                  // any exception from the fetch
    | Page(papers: seq<Paper>, total: nat)

  /** The answer to the n-th request, given the start index and page size asked for. */
  type Server = (nat, nat, nat) -> Response

  function Ids(papers: seq<Paper>): set<string> {
    set k | 0 <= k < |papers| :: papers[k].id
  }

  /** Papers already known are kept as they are. */
  function Merge(known: map<string, Paper>, page: seq<Paper>): map<string, Paper> {
    if page == [] then known
    else
      var front, p := Merge(known, page[..|page| - 1]), page[|page| - 1];
      if p.id in front then front else front[p.id := p]
  }

  lemma {:induction false} MergeGrows(known: map<string, Paper>, page: seq<Paper>)
    ensures Merge(known, page).Keys == known.Keys + Ids(page)
    ensures forall id :: id in known ==> id in Merge(known, page) && Merge(known, page)[id] == known[id]
    ensures |known| <= |Merge(known, page)| <= |known| + |page|
    decreases |page|
  {
    hide Ids;
    if page == [] {
      NoIds();
    } else {
      var n := |page| - 1;
      MergeGrows(known, page[..n]);
      IdsSnoc(page);
      MergeOne(known, Merge(known, page[..n]), page[n], Ids(page[..n]));
    }
  }

  /** Of the papers on a page with one new id, the first is taken, as it is. */
  lemma {:induction false} MergeTakesFirst(known: map<string, Paper>, page: seq<Paper>, k: nat)
    requires k < |page| && page[k].id !in known && forall i :: 0 <= i < k ==> page[i].id != page[k].id
    ensures page[k].id in Merge(known, page) && Merge(known, page)[page[k].id] == page[k]
    decreases |page|
  {
    var n := |page| - 1;
    if k == n {
      MergeGrows(known, page[..n]);
    } else {
      MergeTakesFirst(known, page[..n], k);
    }
  }

  lemma MergeOne(known: map<string, Paper>, front: map<string, Paper>, p: Paper, ids: set<string>)
    requires front.Keys == known.Keys + ids && |known| <= |front|
    requires forall id :: id in known ==> id in front && front[id] == known[id]
    ensures var m := if p.id in front then front else front[p.id := p];
            && m.Keys == known.Keys + (ids + {p.id}) && |known| <= |m| <= |front| + 1
            && forall id :: id in known ==> id in m && m[id] == known[id]
  {
    UnionOne(known.Keys, ids, p.id);
    if p.id !in front {
      SizeOfUpdate(front, p);
    } else {
      assert p.id in front.Keys;
    }
  }

  lemma UnionOne(a: set<string>, b: set<string>, x: string)
    ensures (a + b) + {x} == a + (b + {x})
    ensures x in a + b ==> a + b == a + (b + {x})
  {
  }

  lemma NoIds()
    ensures Ids([]) == {}
  {
  }

  lemma IdsSnoc(page: seq<Paper>)
    requires page != []
    ensures Ids(page) == Ids(page[..|page| - 1]) + {page[|page| - 1].id}
  {
    var n := |page| - 1;
    forall id ensures id in Ids(page) <==> id in Ids(page[..n]) + {page[n].id} {
      if id in Ids(page) {
        var k :| 0 <= k < |page| && page[k].id == id;
        assert k < n ==> page[..n][k].id == id;
      }
      if id in Ids(page[..n]) {
        var k :| 0 <= k < n && page[..n][k].id == id;
        assert page[k].id == id;
      }
    }
  }

  lemma SizeOfUpdate(m: map<string, Paper>, p: Paper)
    requires p.id !in m
    ensures |m[p.id := p]| == |m| + 1 && m[p.id := p].Keys == m.Keys + {p.id}
  {
    assert m[p.id := p].Keys == m.Keys + {p.id};
    assert |m.Keys + {p.id}| == |m.Keys| + 1;
  }

  lemma IdsConcat(a: seq<Paper>, b: seq<Paper>)
    ensures Ids(a + b) == Ids(a) + Ids(b)
    decreases |b|
  {
    if b == [] {
      assert a + b == a;
    } else {
      var n := |b| - 1;
      assert (a + b)[..|a + b| - 1] == a + b[..n];
      IdsConcat(a, b[..n]);
      IdsSnoc(a + b);
      IdsSnoc(b);
    }
  }

  // ----- a stable feed -----

  /** What the server does on one request: fail, blip empty, or return up to `k` entries. */
  datatype Kind = Error | Blip | Full(k: nat)

  function Serve(feed: seq<Paper>, kind: Kind, start: nat, size: nat): Response {
    match kind
    case Error => Failed
    case Blip => Page([], |feed|)
    case Full(k) =>
      if start >= |feed| then Page([], |feed|)
      else
        var want := if k < 1 then 1 else if k > size then size else k;
        var end := if start + want < |feed| then start + want else |feed|;
        Page(feed[start..end], |feed|)
  }

  /** Empty pages since the last non-empty one, before request `n`; errors do not interrupt the count. */
  function BlipRun(kinds: nat -> Kind, n: nat): nat {
    if n == 0 then 0
    else match kinds(n - 1)
      case Error => BlipRun(kinds, n - 1)
      case Blip => BlipRun(kinds, n - 1) + 1
      case Full(_) => 0
  }

  /** The server pages `feed`, never more than the retry budget of empty pages in a row. */
  ghost predicate Stable(server: Server, feed: seq<Paper>, kinds: nat -> Kind) {
    && (forall n: nat, start: nat, size: nat :: server(n, start, size) == Serve(feed, kinds(n), start, size))
    && (forall n: nat :: BlipRun(kinds, n) <= EMPTY_PAGE_RETRIES)
  }

  /** From request `quiet` on, the server raises no more errors. */
  ghost predicate ErrorsEnd(server: Server, quiet: nat) {
    forall n: nat, start: nat, size: nat :: n >= quiet ==> !server(n, start, size).Failed?
  }

  ghost predicate PagesFit(server: Server) {
    forall n: nat, start: nat, size: nat :: server(n, start, size).Page? ==> |server(n, start, size).papers| <= BATCH_SIZE
  }

  /** Nothing known is lost or changed, and `newCount` is the growth. */
  ghost predicate Kept(before: map<string, Paper>, papers: map<string, Paper>, newCount: int) {
    && (forall id :: id in before ==> id in papers && papers[id] == before[id])
    && newCount == |papers| - |before| && newCount >= 0
  }

  /** Under a target, the corpus outgrows it by less than a page. */
  ghost predicate Bounded(server: Server, maxTotal: Option<int>, before: map<string, Paper>, papers: map<string, Paper>) {
    maxTotal.Some? && PagesFit(server) ==>
      |papers| <= |before| || |papers| <= maxTotal.value + BATCH_SIZE - 1
  }

  lemma PageKeeps(server: Server, maxTotal: Option<int>, before: map<string, Paper>, papers: map<string, Paper>,
                  newCount: int, n: nat, start: nat)
    requires Kept(before, papers, newCount) && Bounded(server, maxTotal, before, papers)
    requires maxTotal.Some? ==> maxTotal.value > |papers|
    requires server(n, start, BATCH_SIZE).Page?
    ensures var m := Merge(papers, server(n, start, BATCH_SIZE).papers);
            && |papers| <= |m| && Kept(before, m, newCount + |m| - |papers|) && Bounded(server, maxTotal, before, m)
  {
    hide Kept, Bounded, Merge, PagesFit;
    var page := server(n, start, BATCH_SIZE).papers;
    MergeKept(papers, page);
    KeptTogether(before, papers, Merge(papers, page), newCount, |Merge(papers, page)| - |papers|);
    BoundedStep(server, maxTotal, before, papers, n, start);
  }

  lemma MergeKept(papers: map<string, Paper>, page: seq<Paper>)
    ensures Kept(papers, Merge(papers, page), |Merge(papers, page)| - |papers|)
    ensures |papers| <= |Merge(papers, page)| <= |papers| + |page|
  {
    hide Merge;
    MergeGrows(papers, page);
  }

  lemma BoundedStep(server: Server, maxTotal: Option<int>, before: map<string, Paper>, papers: map<string, Paper>,
                    n: nat, start: nat)
    requires Bounded(server, maxTotal, before, papers) && server(n, start, BATCH_SIZE).Page?
    requires maxTotal.Some? ==> maxTotal.value > |papers|
    ensures Bounded(server, maxTotal, before, Merge(papers, server(n, start, BATCH_SIZE).papers))
  {
    hide Merge, PagesFit, Kept;
    MergeKept(papers, server(n, start, BATCH_SIZE).papers);
    if PagesFit(server) { PageFits(server, n, start); }
  }

  lemma KeptSelf(a: map<string, Paper>)
    ensures Kept(a, a, 0)
  {
  }

  lemma KeptTogether(a: map<string, Paper>, b: map<string, Paper>, c: map<string, Paper>, m: int, n: int)
    requires Kept(a, b, m) && Kept(b, c, n)
    ensures Kept(a, c, m + n)
  {
  }

  lemma PageFits(server: Server, n: nat, start: nat)
    requires server(n, start, BATCH_SIZE).Page? && PagesFit(server)
    ensures |server(n, start, BATCH_SIZE).papers| <= BATCH_SIZE
  {
  }

  /** What the loop knows of a stable feed: everything before `start` is in, and the retries match. */
  ghost predicate Walked(before: map<string, Paper>, papers: map<string, Paper>, feed: seq<Paper>, kinds: nat -> Kind,
                         start: nat, total: nat, retries: nat, calls: nat) {
    && start <= |feed| && (total == 0 ==> start == 0) && (total == 0 || total == |feed|)
    && papers.Keys == before.Keys + Ids(feed[..start])
    && retries == BlipRun(kinds, calls)
  }

  lemma WalkStarts(before: map<string, Paper>, feed: seq<Paper>, kinds: nat -> Kind)
    ensures Walked(before, before, feed, kinds, 0, 0, 0, 0)
  {
    assert feed[..0] == [];
    NoIds();
  }

  /** A request that brought no page: the count of empty pages follows the retries. */
  lemma WalkWaits(server: Server, before: map<string, Paper>, papers: map<string, Paper>, feed: seq<Paper>,
                  kinds: nat -> Kind, start: nat, total: nat, retries: nat, calls: nat)
    requires Stable(server, feed, kinds) && Walked(before, papers, feed, kinds, start, total, retries, calls)
    ensures var r := server(calls, start, BATCH_SIZE);
            && (r.Failed? ==> Walked(before, papers, feed, kinds, start, total, retries, calls + 1))
            && (r.Page? ==> r.total == |feed|)
            && (r.Page? && r.papers == [] && start < |feed| ==>
                  retries < EMPTY_PAGE_RETRIES
                  && Walked(before, papers, feed, kinds, start, r.total, retries + 1, calls + 1))
  {
    hide Ids;
    assert server(calls, start, BATCH_SIZE) == Serve(feed, kinds(calls), start, BATCH_SIZE);
    assert BlipRun(kinds, calls + 1) <= EMPTY_PAGE_RETRIES;
  }

  /** A page from a stable feed moves `start` by exactly what was merged. */
  lemma WalkAdvances(server: Server, before: map<string, Paper>, papers: map<string, Paper>, feed: seq<Paper>,
                     kinds: nat -> Kind, start: nat, total: nat, retries: nat, calls: nat)
    requires Stable(server, feed, kinds) && Walked(before, papers, feed, kinds, start, total, retries, calls)
    requires server(calls, start, BATCH_SIZE).Page? && server(calls, start, BATCH_SIZE).papers != []
    ensures var r := server(calls, start, BATCH_SIZE);
            Walked(before, Merge(papers, r.papers), feed, kinds, start + |r.papers|, r.total, 0, calls + 1)
  {
    hide Ids, Merge;
    var r := server(calls, start, BATCH_SIZE);
    assert r == Serve(feed, kinds(calls), start, BATCH_SIZE);
    assert r.papers == feed[start..start + |r.papers|];
    WalkedOn(before, papers, feed, start, start + |r.papers|);
  }

  lemma WalkedOn(before: map<string, Paper>, papers: map<string, Paper>, feed: seq<Paper>, start: nat, end: nat)
    requires start <= end <= |feed| && papers.Keys == before.Keys + Ids(feed[..start])
    ensures Merge(papers, feed[start..end]).Keys == before.Keys + Ids(feed[..end])
  {
    hide Ids;
    MergeGrows(papers, feed[start..end]);
    assert feed[..end] == feed[..start] + feed[start..end];
    IdsConcat(feed[..start], feed[start..end]);
  }

  // ----- the loop, one iteration at a time -----

  datatype Query = Query(server: Server, maxTotal: Option<int>, stopWhenCaughtUp: bool)

  /** What is promised of the server: when errors end and, for a stable one, its feed and behaviour. */
  datatype Promise = Promise(quiet: nat, feed: seq<Paper>, kinds: nat -> Kind)

  /** The local variables of the loop; `calls` counts the requests made. */
  datatype Cursor = Cursor(start: nat, total: nat, retries: nat, calls: nat, newCount: nat)

  /** A run that walks a stable feed to its end: no early stop, within the page limit. */
  ghost predicate Drains(q: Query, w: Promise) {
    Walks(q, w) && |w.feed| <= ARXIV_DEEP_PAGE_LIMIT && !q.stopWhenCaughtUp
  }

  ghost predicate Walks(q: Query, w: Promise) {
    Stable(q.server, w.feed, w.kinds)
  }

  /** There is a target, and the corpus has it. */
  predicate Met(maxTotal: Option<int>, size: nat) {
    maxTotal.Some? && size >= maxTotal.value
  }

  ghost predicate Inv(q: Query, w: Promise, before: map<string, Paper>, papers: map<string, Paper>, c: Cursor) {
    && Kept(before, papers, c.newCount) && Bounded(q.server, q.maxTotal, before, papers)
    && c.retries <= EMPTY_PAGE_RETRIES
    && (Walks(q, w) ==> Walked(before, papers, w.feed, w.kinds, c.start, c.total, c.retries, c.calls))
  }

  // ----- what a run takes of a stable feed -----

  /** What is known once the feed is walked to `at`. */
  ghost function Known(before: map<string, Paper>, feed: seq<Paper>, at: nat): set<string>
    requires at <= |feed|
  {
    before.Keys + Ids(feed[..at])
  }

  /** A page of `feed` that the run asked for: below the page limit, and the target not met yet. */
  ghost predicate Taken(q: Query, feed: seq<Paper>, before: map<string, Paper>, from: nat, to: nat) {
    && from < to <= |feed| && to <= from + BATCH_SIZE && from < ARXIV_DEEP_PAGE_LIMIT
    && !Met(q.maxTotal, |Known(before, feed, from)|)
  }

  /** A page past the first with nothing new on it. */
  ghost predicate Stale(feed: seq<Paper>, before: map<string, Paper>, from: nat, to: nat) {
    0 < from <= to <= |feed| && Ids(feed[from..to]) <= Known(before, feed, from)
  }

  /** The run took the page between two cuts and went on. */
  ghost predicate Passed(q: Query, feed: seq<Paper>, before: map<string, Paper>, cuts: seq<nat>, k: nat) {
    && k + 1 < |cuts| && Taken(q, feed, before, cuts[k], cuts[k + 1])
    && !(q.stopWhenCaughtUp && Stale(feed, before, cuts[k], cuts[k + 1]))
  }

  /** The pages of a run from the start of the feed to `at`. */
  ghost predicate Paged(q: Query, feed: seq<Paper>, before: map<string, Paper>, cuts: seq<nat>, at: nat) {
    && cuts != [] && cuts[0] == 0 && cuts[|cuts| - 1] == at
    && forall k :: 0 <= k < |cuts| - 1 ==> Passed(q, feed, before, cuts, k)
  }

  /** A run stops with its target met, at the end of the feed or the page limit, or at a stale page. */
  ghost predicate Stops(q: Query, feed: seq<Paper>, before: map<string, Paper>, papers: map<string, Paper>, at: nat) {
    && at <= |feed| && papers.Keys == Known(before, feed, at)
    && (|| Met(q.maxTotal, |papers|) || at == |feed| || at >= ARXIV_DEEP_PAGE_LIMIT
        || (q.stopWhenCaughtUp && exists to :: Taken(q, feed, before, at, to) && Stale(feed, before, at, to)))
  }

  /** All that a run over a stable feed does: its pages, and why it stopped after them. */
  ghost predicate Harvested(q: Query, feed: seq<Paper>, before: map<string, Paper>, papers: map<string, Paper>,
                            cuts: seq<nat>) {
    cuts != [] && Paged(q, feed, before, cuts, cuts[|cuts| - 1]) && Stops(q, feed, before, papers, cuts[|cuts| - 1])
  }

  lemma PagedStarts(q: Query, feed: seq<Paper>, before: map<string, Paper>)
    ensures Paged(q, feed, before, [0], 0)
  {
  }

  lemma PagedNext(q: Query, feed: seq<Paper>, before: map<string, Paper>, cuts: seq<nat>, at: nat, to: nat)
    requires Paged(q, feed, before, cuts, at) && Taken(q, feed, before, at, to)
    requires !(q.stopWhenCaughtUp && Stale(feed, before, at, to))
    ensures Paged(q, feed, before, cuts + [to], to)
  {
    hide Taken, Stale;
    var next := cuts + [to];
    forall k | 0 <= k < |next| - 1 ensures Passed(q, feed, before, next, k) {
      if k < |cuts| - 1 { assert Passed(q, feed, before, cuts, k); }
    }
  }

  lemma SizeIs(papers: map<string, Paper>, ids: set<string>)
    requires papers.Keys == ids
    ensures |papers| == |ids|
  {
  }

  /** A page with nothing new leaves the corpus as it was, and only such a page does. */
  lemma {:induction false} MergeNothing(papers: map<string, Paper>, page: seq<Paper>)
    ensures |Merge(papers, page)| == |papers| <==> Ids(page) <= papers.Keys
    ensures |Merge(papers, page)| == |papers| ==> Merge(papers, page) == papers
  {
    hide Merge, Ids;
    MergeGrows(papers, page);
    var m := Merge(papers, page);
    if |m| == |papers| {
      SameSize(papers.Keys, m.Keys);
      assert papers.Keys == m.Keys;
      assert forall id :: id in papers ==> m[id] == papers[id];
    }
    if Ids(page) <= papers.Keys { assert m.Keys == papers.Keys; }
  }

  lemma SameSize(a: set<string>, b: set<string>)
    requires a <= b && |a| == |b|
    ensures a == b
  {
    assert |b - a| == |b| - |a|;
  }

  /** What a non-empty page of a stable feed is, where the loop asks for it. */
  lemma PageTaken(q: Query, w: Promise, before: map<string, Paper>, papers: map<string, Paper>, c: Cursor)
    requires Walks(q, w) && Inv(q, w, before, papers, c) && Asked(q, c).Page? && Asked(q, c).papers != []
    requires c.start < ARXIV_DEEP_PAGE_LIMIT && !Met(q.maxTotal, |papers|)
    ensures var to := c.start + |Asked(q, c).papers|;
            && Taken(q, w.feed, before, c.start, to)
            && (Stale(w.feed, before, c.start, to) <==> c.start > 0 && Ids(Asked(q, c).papers) <= papers.Keys)
  {
    hide Ids, Kept, Bounded, BlipRun;
    var r := Asked(q, c);
    assert r == Serve(w.feed, w.kinds(c.calls), c.start, BATCH_SIZE);
    assert r.papers == w.feed[c.start..c.start + |r.papers|];
    SizeIs(papers, Known(before, w.feed, c.start));
  }

  function ErrorsLeft(quiet: nat, c: Cursor): nat {
    if c.calls < quiet then quiet - c.calls else 0
  }

  function DepthLeft(c: Cursor): nat {
    if c.start < ARXIV_DEEP_PAGE_LIMIT then ARXIV_DEEP_PAGE_LIMIT - c.start else 0
  }

  function RetriesLeft(c: Cursor): nat {
    if c.retries < EMPTY_PAGE_RETRIES then EMPTY_PAGE_RETRIES - c.retries else 0
  }

  /** Progress: errors left, then distance to the page limit, then retries left. */
  ghost predicate Closer(quiet: nat, c': Cursor, c: Cursor) {
    || ErrorsLeft(quiet, c') < ErrorsLeft(quiet, c)
    || (ErrorsLeft(quiet, c') == ErrorsLeft(quiet, c)
        && (DepthLeft(c') < DepthLeft(c) || (DepthLeft(c') == DepthLeft(c) && RetriesLeft(c') < RetriesLeft(c))))
  }

  function Asked(q: Query, c: Cursor): Response {
    q.server(c.calls, c.start, BATCH_SIZE)
  }

  function AfterError(c: Cursor): Cursor { c.(calls := c.calls + 1) }

  function AfterBlip(c: Cursor, total: nat): Cursor {
    c.(total := total, retries := c.retries + 1, calls := c.calls + 1)
  }

  function AfterPage(c: Cursor, r: Response, added: nat): Cursor
    requires r.Page?
  {
    Cursor(c.start + |r.papers|, r.total, 0, c.calls + 1, c.newCount + added)
  }

  lemma ErrorStep(q: Query, w: Promise, before: map<string, Paper>, papers: map<string, Paper>, c: Cursor)
    requires ErrorsEnd(q.server, w.quiet) && Inv(q, w, before, papers, c) && Asked(q, c).Failed?
    ensures Inv(q, w, before, papers, AfterError(c)) && Closer(w.quiet, AfterError(c), c)
  {
    hide Kept, Bounded, Walked, Stable;
    if Walks(q, w) {
      WalkWaits(q.server, before, papers, w.feed, w.kinds, c.start, c.total, c.retries, c.calls);
    }
  }

  lemma BlipStep(q: Query, w: Promise, before: map<string, Paper>, papers: map<string, Paper>, c: Cursor)
    requires Inv(q, w, before, papers, c) && Asked(q, c).Page? && Asked(q, c).papers == []
    requires c.start < Asked(q, c).total && c.retries < EMPTY_PAGE_RETRIES
    ensures var c' := AfterBlip(c, Asked(q, c).total); Inv(q, w, before, papers, c') && Closer(w.quiet, c', c)
  {
    hide Kept, Bounded, Walked, Stable;
    if Walks(q, w) {
      WalkWaits(q.server, before, papers, w.feed, w.kinds, c.start, c.total, c.retries, c.calls);
    }
  }

  lemma PageStep(q: Query, w: Promise, before: map<string, Paper>, papers: map<string, Paper>, c: Cursor)
    requires Inv(q, w, before, papers, c) && Asked(q, c).Page? && Asked(q, c).papers != []
    requires c.start < ARXIV_DEEP_PAGE_LIMIT && (q.maxTotal.Some? ==> q.maxTotal.value > |papers|)
    ensures var m := Merge(papers, Asked(q, c).papers);
            && |papers| <= |m|
            && var c' := AfterPage(c, Asked(q, c), |m| - |papers|);
               Inv(q, w, before, m, c') && Closer(w.quiet, c', c)
  {
    hide Kept, Bounded, Walked, Stable, Merge, PagesFit;
    PageKeeps(q.server, q.maxTotal, before, papers, c.newCount, c.calls, c.start);
    if Walks(q, w) {
      WalkAdvances(q.server, before, papers, w.feed, w.kinds, c.start, c.total, c.retries, c.calls);
    }
  }

  /** The ways out of the loop before a page is merged. */
  lemma StopStep(q: Query, w: Promise, before: map<string, Paper>, papers: map<string, Paper>, c: Cursor)
    requires Inv(q, w, before, papers, c) && Walks(q, w)
    requires || Met(q.maxTotal, |papers|) || (c.total != 0 && c.start >= c.total) || c.start >= ARXIV_DEEP_PAGE_LIMIT
             || (Asked(q, c).Page? && Asked(q, c).papers == []
                 && !(c.start < Asked(q, c).total && c.retries < EMPTY_PAGE_RETRIES))
    ensures Stops(q, w.feed, before, papers, c.start)
  {
    hide Ids, Stable, BlipRun, Kept, Bounded, Taken, Stale;
    WalkWaits(q.server, before, papers, w.feed, w.kinds, c.start, c.total, c.retries, c.calls);
  }

  /** The way out after a stale page. */
  lemma StaleStop(q: Query, w: Promise, before: map<string, Paper>, papers: map<string, Paper>, c: Cursor)
    requires Inv(q, w, before, papers, c) && Walks(q, w) && Asked(q, c).Page? && Asked(q, c).papers != []
    requires c.start < ARXIV_DEEP_PAGE_LIMIT && !Met(q.maxTotal, |papers|)
    requires q.stopWhenCaughtUp && c.start > 0 && Ids(Asked(q, c).papers) <= papers.Keys
    ensures Stops(q, w.feed, before, papers, c.start)
  {
    hide Ids, Stable, BlipRun, Kept, Bounded, Taken, Stale, Asked;
    PageTaken(q, w, before, papers, c);
    var to := c.start + |Asked(q, c).papers|;
    assert Taken(q, w.feed, before, c.start, to) && Stale(w.feed, before, c.start, to);
  }

  lemma {:induction false} MergeSnoc(papers: map<string, Paper>, page: seq<Paper>, k: nat)
    requires k < |page|
    ensures var m, p := Merge(papers, page[..k]), page[k];
            Merge(papers, page[..k + 1]) == if p.id in m then m else m[p.id := p]
  {
    assert page[..k + 1][..k] == page[..k];
  }

  /** Merge one page in order; `added` is how many of its papers were new. */
  method MergePage(papers: map<string, Paper>, page: seq<Paper>) returns (merged: map<string, Paper>, added: nat)
    ensures merged == Merge(papers, page) && added == |merged| - |papers|
  {
    merged, added := papers, 0;
    var k := 0;
    assert page[..0] == [];
    while k < |page|
      invariant 0 <= k <= |page| && merged == Merge(papers, page[..k])
      invariant |merged| == |papers| + added
    {
      hide Merge;
      MergeSnoc(papers, page, k);
      var p := page[k];
      if p.id !in merged {
        SizeOfUpdate(merged, p);
        merged := merged[p.id := p];
        added := added + 1;
      }
      k := k + 1;
    }
    assert page[..k] == page;
  }

  /** When the loop goes round again. */
  predicate GoesOn(q: Query, papers: map<string, Paper>, c: Cursor) {
    && !Met(q.maxTotal, |papers|) && (c.total == 0 || c.start < c.total) && c.start < 10000
    && var r := Asked(q, c);
       || r.Failed?
       || (r.papers == [] && c.start < r.total && c.retries < 3)
       || (r.papers != [] && !(q.stopWhenCaughtUp && c.start > 0 && Ids(r.papers) <= papers.Keys))
  }

  /** One pass through the loop body; `go` is false where the source breaks. */
  method Iterate(q: Query, ghost w: Promise, ghost before: map<string, Paper>, papers: map<string, Paper>, c: Cursor,
                 ghost cuts: seq<nat>)
    returns (papers': map<string, Paper>, c': Cursor, go: bool, ghost cuts': seq<nat>)
    requires ErrorsEnd(q.server, w.quiet) && Inv(q, w, before, papers, c)
    requires Walks(q, w) ==> Paged(q, w.feed, before, cuts, c.start)
    ensures Inv(q, w, before, papers', c') && (go <==> GoesOn(q, papers, c))
    ensures go ==> Closer(w.quiet, c', c)
    ensures Walks(q, w) ==> Paged(q, w.feed, before, cuts', c'.start)
    ensures Walks(q, w) && !go ==> Stops(q, w.feed, before, papers', c'.start)
    ensures Met(q.maxTotal, |papers|) ==> papers' == papers
  {
    LoopIs(q, papers, c);
    hide *;
    papers', c', go, cuts' := papers, c, false, cuts;
    if q.maxTotal.Some? && q.maxTotal.value - |papers| <= 0 {
      if Walks(q, w) { StopStep(q, w, before, papers, c); }
      return;
    }
    if (c.total != 0 && c.start >= c.total) || c.start >= ARXIV_DEEP_PAGE_LIMIT {
      if Walks(q, w) { StopStep(q, w, before, papers, c); }
      return;
    }
    var r := Asked(q, c);
    if r.Failed? {
      ErrorStep(q, w, before, papers, c);
      return papers, AfterError(c), true, cuts;
    }
    if r.papers == [] {
      if c.start < r.total && c.retries < EMPTY_PAGE_RETRIES {
        BlipStep(q, w, before, papers, c);
        return papers, AfterBlip(c, r.total), true, cuts;
      }
      if Walks(q, w) { StopStep(q, w, before, papers, c); }
      return;
    }
    PageStep(q, w, before, papers, c);
    MergeNothing(papers, r.papers);
    var added;
    papers', added := MergePage(papers, r.papers);
    if added == 0 && c.start > 0 && q.stopWhenCaughtUp {
      if Walks(q, w) { StaleStop(q, w, before, papers, c); }
      return papers', c.(newCount := c.newCount + added), false, cuts;
    }
    if Walks(q, w) {
      PageTaken(q, w, before, papers, c);
      PagedNext(q, w.feed, before, cuts, c.start, c.start + |r.papers|);
    }
    return papers', AfterPage(c, r, added), true, cuts + [c.start + |r.papers|];
  }

  /** The facts of the loop body that its proof needs. */
  lemma LoopIs(q: Query, papers: map<string, Paper>, c: Cursor)
    ensures Met(q.maxTotal, |papers|) <==> q.maxTotal.Some? && q.maxTotal.value - |papers| <= 0
    ensures ARXIV_DEEP_PAGE_LIMIT == 10000 && EMPTY_PAGE_RETRIES == 3
    ensures AfterError(c).start == c.start
    ensures forall total: nat :: AfterBlip(c, total).start == c.start
    ensures forall r: Response, added: nat :: r.Page? ==> AfterPage(c, r, added).start == c.start + |r.papers|
    ensures GoesOn(q, papers, c) <==>
              && !Met(q.maxTotal, |papers|) && (c.total == 0 || c.start < c.total) && c.start < 10000
              && var r := Asked(q, c);
                 || r.Failed?
                 || (r.papers == [] && c.start < r.total && c.retries < 3)
                 || (r.papers != [] && !(q.stopWhenCaughtUp && c.start > 0 && Ids(r.papers) <= papers.Keys))
  {
    hide Asked, Ids;
  }

  lemma InvStarts(q: Query, w: Promise, before: map<string, Paper>)
    ensures Inv(q, w, before, before, Cursor(0, 0, 0, 0, 0))
  {
    hide Stable;
    WalkStarts(before, w.feed, w.kinds);
  }

  lemma InvParts(q: Query, w: Promise, before: map<string, Paper>, papers: map<string, Paper>, c: Cursor)
    requires Inv(q, w, before, papers, c)
    ensures Kept(before, papers, c.newCount) && Bounded(q.server, q.maxTotal, before, papers)
  {
  }

  lemma CloserIs(quiet: nat)
    ensures forall c', c :: Closer(quiet, c', c) <==>
              || ErrorsLeft(quiet, c') < ErrorsLeft(quiet, c)
              || (ErrorsLeft(quiet, c') == ErrorsLeft(quiet, c)
                  && (DepthLeft(c') < DepthLeft(c) || (DepthLeft(c') == DepthLeft(c) && RetriesLeft(c') < RetriesLeft(c))))
  {
    hide ErrorsLeft, DepthLeft, RetriesLeft;
  }

  /** What the stopping rules leave of a feed. */
  lemma StopsAre(q: Query, w: Promise, before: map<string, Paper>, papers: map<string, Paper>, cuts: seq<nat>, at: nat)
    requires Paged(q, w.feed, before, cuts, at) && Stops(q, w.feed, before, papers, at)
    ensures Harvested(q, w.feed, before, papers, cuts)
    ensures papers.Keys <= before.Keys + Ids(w.feed)
    ensures Drains(q, w) ==> Met(q.maxTotal, |papers|) || papers.Keys == before.Keys + Ids(w.feed)
  {
    hide Ids, Passed, Taken, Stale, Walks;
    assert w.feed == w.feed[..at] + w.feed[at..];
    IdsConcat(w.feed[..at], w.feed[at..]);
    if at == |w.feed| { assert w.feed[..at] == w.feed; }
  }

  class Corpus {
    var papers: map<string, Paper>

    /**
     `harvest_query`. Against any server: nothing known is lost or overwritten, the result is
     exactly the growth, and a target bounds the size. Against a stable feed, the corpus gains a
     run of whole pages from its front that ends where one of the stopping rules says, and no
     earlier: without the caught-up stop and within the page limit, the target is met or the
     whole feed is in.
     */
    method HarvestQuery(q: Query, ghost w: Promise) returns (newCount: nat)
      requires ErrorsEnd(q.server, w.quiet)
      modifies this
      ensures Kept(old(papers), papers, newCount) && Bounded(q.server, q.maxTotal, old(papers), papers)
      ensures Met(q.maxTotal, |old(papers)|) ==> papers == old(papers)
      ensures Walks(q, w) ==> exists cuts :: Harvested(q, w.feed, old(papers), papers, cuts)
      ensures Walks(q, w) ==> papers.Keys <= old(papers).Keys + Ids(w.feed)
      ensures Drains(q, w) ==> Met(q.maxTotal, |papers|) || papers.Keys == old(papers).Keys + Ids(w.feed)
    {
      var c, go := Cursor(0, 0, 0, 0, 0), true;
      ghost var cuts: seq<nat> := [0];
      InvStarts(q, w, papers);
      PagedStarts(q, w.feed, papers);
      hide *;
      while go
        invariant Inv(q, w, old(papers), papers, c)
        invariant Walks(q, w) ==> Paged(q, w.feed, old(papers), cuts, c.start)
        invariant Walks(q, w) && !go ==> Stops(q, w.feed, old(papers), papers, c.start)
        invariant Met(q.maxTotal, |old(papers)|) ==> papers == old(papers)
        decreases go, ErrorsLeft(w.quiet, c), DepthLeft(c), RetriesLeft(c)
      {
        var all;
        all, c, go, cuts := Iterate(q, w, old(papers), papers, c, cuts);
        CloserIs(w.quiet);
        papers := all;
      }
      InvParts(q, w, old(papers), papers, c);
      if Walks(q, w) { StopsAre(q, w, old(papers), papers, cuts, c.start); }
      return c.newCount;
    }

    /** A second run over the same feed, with the same target if any, adds nothing. */
    method HarvestAgain(q: Query, ghost w: Promise, q': Query, ghost w': Promise) returns (first: nat, second: nat)
      requires ErrorsEnd(q.server, w.quiet) && ErrorsEnd(q'.server, w'.quiet)
      requires Drains(q, w) && Walks(q', w') && w'.feed == w.feed && q'.maxTotal == q.maxTotal
      modifies this
      ensures Met(q.maxTotal, |papers|) || papers.Keys == old(papers).Keys + Ids(w.feed)
      ensures first == |papers| - |old(papers)| && second == 0
    {
      hide Harvested, Ids, Bounded, Stable;
      first := HarvestQuery(q, w);
      ghost var mid := papers;
      assert Met(q.maxTotal, |mid|) || mid.Keys == old(papers).Keys + Ids(w.feed);
      second := HarvestQuery(q', w');
      if !Met(q.maxTotal, |mid|) {
        assert papers.Keys <= mid.Keys;
        assert papers.Keys == mid.Keys;
        SizeIs(papers, mid.Keys);
      }
    }

    /** The `k`-th category, after the ones before it. */
    method HarvestNext(run: Harvesting, ghost promises: seq<Promise>, k: nat, ghost before: map<string, Paper>, count: nat)
      returns (newCount: nat)
      requires Promised(run, promises) && k < |run.servers| && Collected(run, before, papers, promises, k, count)
      requires !Met(run.maxTotal, |papers|)
      modifies this
      ensures Collected(run, before, papers, promises, k + 1, newCount)
    {
      hide *;
      PromisedAt(run, promises, k);
      ghost var mid := papers;
      QueryIs(run, k);
      var more := HarvestQuery(QueryOf(run, k), promises[k]);
      CollectedStep(run, before, mid, papers, promises, k, count, more);
      newCount := count + more;
    }

    /**
     `main`'s loop: one query per category until a target is met. Nothing known is lost, the
     result is the growth, and a target bounds the size over all categories together; with no
     early stop, over stable feeds, the target is met or the union of the feeds is in.
     */
    method HarvestAll(run: Harvesting, ghost promises: seq<Promise>) returns (newCount: nat)
      requires Promised(run, promises)
      modifies this
      ensures Kept(old(papers), papers, newCount) && BoundedAll(run, old(papers), papers)
      ensures AllDrain(run, promises) ==>
                Met(run.maxTotal, |papers|) || Covered(old(papers), papers, promises)
    {
      CollectedStart(run, papers, promises);
      hide Kept, Covered, BoundedAll, Promised, Collected, AllDrain, Met;
      newCount := 0;
      var k := 0;
      while k < |run.servers|
        invariant 0 <= k <= |run.servers| && Collected(run, old(papers), papers, promises, k, newCount)
      {
        if run.maxTotal.Some? && |papers| >= run.maxTotal.value {
          CollectedStops(run, old(papers), papers, promises, k, newCount);
          return;
        }
        assert !Met(run.maxTotal, |papers|) by { MetIs(run.maxTotal, |papers|); }
        newCount := HarvestNext(run, promises, k, old(papers), newCount);
        k := k + 1;
      }
      CollectedEnd(run, old(papers), papers, promises, newCount);
    }
  }

  /** One server per category, with the options of the run. */
  datatype Harvesting = Harvesting(servers: seq<Server>, maxTotal: Option<int>, stopWhenCaughtUp: bool)

  function QueryOf(run: Harvesting, k: nat): Query
    requires k < |run.servers|
  {
    Query(run.servers[k], run.maxTotal, run.stopWhenCaughtUp)
  }

  /** Each category's server errs only finitely often. */
  ghost predicate Promised(run: Harvesting, promises: seq<Promise>) {
    && |run.servers| == |promises|
    && forall k :: 0 <= k < |run.servers| ==> ErrorsEnd(run.servers[k], promises[k].quiet)
  }

  ghost predicate AllDrain(run: Harvesting, promises: seq<Promise>) {
    && |run.servers| == |promises|
    && forall k :: 0 <= k < |run.servers| ==> Drains(QueryOf(run, k), promises[k])
  }

  /** Under a target, the corpus outgrows it by less than a page, however many categories there are. */
  ghost predicate BoundedAll(run: Harvesting, before: map<string, Paper>, papers: map<string, Paper>) {
    run.maxTotal.Some? && (forall k :: 0 <= k < |run.servers| ==> PagesFit(run.servers[k])) ==>
      |papers| <= |before| || |papers| <= run.maxTotal.value + BATCH_SIZE - 1
  }

  ghost predicate Collected(run: Harvesting, before: map<string, Paper>, papers: map<string, Paper>,
                            promises: seq<Promise>, k: nat, count: int)
  {
    && k <= |promises| && Kept(before, papers, count) && BoundedAll(run, before, papers)
    && (AllDrain(run, promises) ==> Met(run.maxTotal, |papers|) || Covered(before, papers, promises[..k]))
  }

  lemma PromisedAt(run: Harvesting, promises: seq<Promise>, k: nat)
    requires Promised(run, promises) && k < |run.servers|
    ensures |run.servers| == |promises| && ErrorsEnd(QueryOf(run, k).server, promises[k].quiet)
  {
  }

  lemma CollectedStart(run: Harvesting, papers: map<string, Paper>, promises: seq<Promise>)
    ensures Collected(run, papers, papers, promises, 0, 0)
  {
    KeptSelf(papers);
    CoveredStart(papers, promises);
  }

  lemma MetIs(maxTotal: Option<int>, size: nat)
    ensures Met(maxTotal, size) <==> maxTotal.Some? && size >= maxTotal.value
  {
  }

  lemma QueryIs(run: Harvesting, k: nat)
    requires k < |run.servers|
    ensures QueryOf(run, k).maxTotal == run.maxTotal
  {
  }

  lemma CollectedStep(run: Harvesting, before: map<string, Paper>, mid: map<string, Paper>, after: map<string, Paper>,
                      promises: seq<Promise>, k: nat, count: int, more: int)
    requires |run.servers| == |promises| && k < |run.servers| && Collected(run, before, mid, promises, k, count)
    requires Kept(mid, after, more) && Bounded(QueryOf(run, k).server, QueryOf(run, k).maxTotal, mid, after)
    requires !Met(run.maxTotal, |mid|)
    requires Drains(QueryOf(run, k), promises[k]) ==>
               Met(run.maxTotal, |after|) || after.Keys == mid.Keys + Ids(promises[k].feed)
    ensures Collected(run, before, after, promises, k + 1, count + more)
  {
    hide Kept, Covered, Ids, Drains, PagesFit;
    KeptTogether(before, mid, after, count, more);
    if AllDrain(run, promises) {
      assert Drains(QueryOf(run, k), promises[k]);
      if !Met(run.maxTotal, |after|) { CoveredStep(before, mid, after, promises, k); }
    }
  }

  lemma CollectedStops(run: Harvesting, before: map<string, Paper>, papers: map<string, Paper>,
                       promises: seq<Promise>, k: nat, count: int)
    requires Collected(run, before, papers, promises, k, count)
    requires run.maxTotal.Some? && |papers| >= run.maxTotal.value
    ensures Kept(before, papers, count) && BoundedAll(run, before, papers) && Met(run.maxTotal, |papers|)
  {
    hide Kept, BoundedAll, Covered, AllDrain;
  }

  lemma CollectedEnd(run: Harvesting, before: map<string, Paper>, papers: map<string, Paper>,
                     promises: seq<Promise>, count: int)
    requires Promised(run, promises) && Collected(run, before, papers, promises, |run.servers|, count)
    ensures Kept(before, papers, count) && BoundedAll(run, before, papers)
    ensures AllDrain(run, promises) ==> Met(run.maxTotal, |papers|) || Covered(before, papers, promises)
  {
    hide Kept, BoundedAll, Covered, AllDrain;
    assert promises[..|promises|] == promises;
  }

  /** The feeds of all the promises, and nothing else, have been added. */
  ghost predicate Covered(before: map<string, Paper>, papers: map<string, Paper>, promises: seq<Promise>) {
    papers.Keys == before.Keys + AllIds(promises)
  }

  lemma CoveredStart(before: map<string, Paper>, promises: seq<Promise>)
    ensures Covered(before, before, promises[..0])
  {
  }

  lemma {:induction false} CoveredStep(before: map<string, Paper>, mid: map<string, Paper>, after: map<string, Paper>,
                                       promises: seq<Promise>, k: nat)
    requires k < |promises| && Covered(before, mid, promises[..k]) && after.Keys == mid.Keys + Ids(promises[k].feed)
    ensures Covered(before, after, promises[..k + 1])
  {
    hide Ids;
    assert promises[..k + 1][..k] == promises[..k];
  }

  /** The ids of all the feeds together. */
  ghost function AllIds(promises: seq<Promise>): set<string> {
    if promises == [] then {} else AllIds(promises[..|promises| - 1]) + Ids(promises[|promises| - 1].feed)
  }
}
