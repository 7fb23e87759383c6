/** The report-administration page: the list of reports loaded once on mount, and
    the "resolve" action, which asks the backend to mark one report resolved and then
    patches the local list in place without re-fetching it. */
module Reports {
  import opened Replies

  type ReportId = int

  /** A row of the reports table as the page holds it. */
  datatype Report = Report(
    id: ReportId,
    postId: int,
    reporterId: string,
    reason: string,
    createdAt: string,
    resolved: bool)

  /** The page's view state: the report list and the `loading` flag. */
  datatype Page = Page(reports: seq<Report>, loading: bool)

  /** On mount: no reports yet, and the fetch is outstanding. */
  const Mounted := Page([], true)

  // ---------------------------------------------------------------------------
  // Fetch completion
  // ---------------------------------------------------------------------------

  /** The fetch's completion callback: on success the list becomes the fetched rows,
      on error the list is left as it was; either way `loading` ends. */
  function FetchCompleted(p: Page, reply: Reply<seq<Report>>): (q: Page)
    ensures !q.loading
    ensures reply.Ok? ==> q.reports == reply.value
    ensures reply.Err? ==> q.reports == p.reports
  {
    match reply
    case Ok(rows) => Page(rows, false)
    case Err(_) => p.(loading := false)
  }

  /** Loaded from the freshly mounted page: a failed fetch leaves an empty list, a
      successful one shows exactly the fetched rows, and the page stops loading. */
  lemma FetchFromMount(reply: Reply<seq<Report>>)
    ensures var q := FetchCompleted(Mounted, reply);
            && !q.loading
            && q.reports == (if reply.Ok? then reply.value else [])
  {
  }

  // ---------------------------------------------------------------------------
  // Resolving one report
  // ---------------------------------------------------------------------------

  /** The `map` callback: `r.id === id ? { ...r, resolved: true } : r`. */
  function MarkIfMatch(r: Report, id: ReportId): Report
  {
    if r.id == id then r.(resolved := true) else r
  }

  /** The local patch `prev.map(...)` applied by `handleResolve`: same length and order;
      a record with the id is copied with `resolved` set and every other field kept; any
      other record is left exactly as it was. */
  function Resolve(reports: seq<Report>, id: ReportId): (out: seq<Report>)
    ensures |out| == |reports|
    ensures forall i :: 0 <= i < |reports| && reports[i].id == id ==>
              out[i] == reports[i].(resolved := true)
    ensures forall i :: 0 <= i < |reports| && reports[i].id != id ==> out[i] == reports[i]
    decreases |reports|
  {
    if |reports| == 0 then []
    else [MarkIfMatch(reports[0], id)] + Resolve(reports[1..], id)
  }

  /** The request `handleResolve` sends: set `resolved` on the row with this id. */
  datatype Update = MarkResolved(table: string, id: ReportId)

  /** `handleResolve(id)`: the update request it sends, and the page after the server's
      reply. The reply is awaited but never inspected, so the patch is applied whatever
      it is, and the loading flag is not touched. */
  function HandleResolve(p: Page, id: ReportId, reply: Reply<()>): (result: (Update, Page))
    ensures result.0 == MarkResolved("reports", id)
    ensures result.1.loading == p.loading
    ensures |result.1.reports| == |p.reports|
    ensures forall i :: 0 <= i < |p.reports| ==> result.1.reports[i].resolved == (p.reports[i].resolved || p.reports[i].id == id)
  {
    (MarkResolved("reports", id), p.(reports := Resolve(p.reports, id)))
  }

  /** The server's answer has no influence on the page. */
  lemma ResolveIgnoresServerReply(p: Page, id: ReportId, a: Reply<()>, b: Reply<()>)
    ensures HandleResolve(p, id, a) == HandleResolve(p, id, b)
    ensures HandleResolve(p, id, a).1.reports == Resolve(p.reports, id)
  {
  }

  /** The ids of a list, in order. */
  function Ids(reports: seq<Report>): seq<ReportId>
  {
    if |reports| == 0 then [] else [reports[0].id] + Ids(reports[1..])
  }

  /** Every field except `resolved`, for comparing records up to their flag. */
  function Content(r: Report): (ReportId, int, string, string, string)
  {
    (r.id, r.postId, r.reporterId, r.reason, r.createdAt)
  }

  /** Resolving keeps the list's ids in the same order. */
  lemma {:induction false} ResolveKeepsOrder(reports: seq<Report>, id: ReportId)
    ensures Ids(Resolve(reports, id)) == Ids(reports)
    decreases |reports|
  {
    if |reports| > 0 {
      var out := Resolve(reports, id);
      assert out[1..] == Resolve(reports[1..], id);
      ResolveKeepsOrder(reports[1..], id);
    }
  }

  /** Only the flag changes: each record keeps all its other fields. */
  lemma ResolveKeepsContent(reports: seq<Report>, id: ReportId)
    ensures var out := Resolve(reports, id);
            forall i :: 0 <= i < |reports| ==> Content(out[i]) == Content(reports[i])
  {
  }

  /** Resolving twice is resolving once. */
  lemma ResolveIdempotent(reports: seq<Report>, id: ReportId)
    ensures Resolve(Resolve(reports, id), id) == Resolve(reports, id)
  {
  }

  /** A resolved record never becomes unresolved, and after resolving `id` every record
      with that id is resolved. */
  lemma ResolveMonotone(reports: seq<Report>, id: ReportId)
    ensures var out := Resolve(reports, id);
            && (forall i :: 0 <= i < |reports| && reports[i].resolved ==> out[i].resolved)
            && (forall i :: 0 <= i < |reports| && reports[i].id == id ==> out[i].resolved)
  {
  }

  /** Resolving an id that no record carries changes nothing. */
  lemma ResolveAbsent(reports: seq<Report>, id: ReportId)
    requires forall i :: 0 <= i < |reports| ==> reports[i].id != id
    ensures Resolve(reports, id) == reports
  {
  }

  /** The ids of the resolved records. */
  function ResolvedIds(reports: seq<Report>): set<ReportId>
  {
    set i | 0 <= i < |reports| && reports[i].resolved :: reports[i].id
  }

  /** Resolving adds `id` to the resolved ids exactly when some record carries it,
      and adds nothing else. */
  lemma ResolveAddsOnlyId(reports: seq<Report>, id: ReportId)
    ensures ResolvedIds(Resolve(reports, id)) ==
            ResolvedIds(reports) + (set i | 0 <= i < |reports| && reports[i].id == id :: id)
  {
  }

  /** Resolving two ids in either order gives the same list. */
  lemma ResolveCommutes(reports: seq<Report>, a: ReportId, b: ReportId)
    ensures Resolve(Resolve(reports, a), b) == Resolve(Resolve(reports, b), a)
  {
  }
}
