/** The Bugzilla API client: which CGI each call targets and which query
    parameters it sends. The HTTP transport itself is the oracle the fetcher
    is given; here a call is the request it would send. */
module BugzillaClient {
  import opened Wrappers
  import opened DateTimes

  /** Query parameters as a query string carries them: a name and its values. */
  type Params = map<string, seq<string>>

  datatype Request = Request(cgi: string, params: Params)

  /** A non-success HTTP status, raised by `raise_for_status`. */
  datatype HttpError = HttpError(status: int)

  const CgiBuglist := "buglist.cgi"
  const CgiBug := "show_bug.cgi"
  const CgiBugActivity := "show_activity.cgi"

  const ParamBugId := "id"
  const ParamChangedFrom := "chfieldfrom"
  const ParamContentType := "ctype"
  const ParamOrder := "order"
  const ParamExcludeField := "excludefield"

  const ContentTypeCsv := "csv"
  const ContentTypeXml := "xml"

  /** Server versions that take the old-style `order` value. */
  const OldStyleVersions := ["3.2.3", "3.2.2"]

  const OrderLastChanged := "Last+Changed"
  const OrderChangedDate := "changeddate"

  /** The `order` value for a server of the given version (`None` when unknown). */
  function BuglistOrder(version: Option<string>): (order: string)
    ensures order == OrderLastChanged <==> version == Some("3.2.3") || version == Some("3.2.2")
    ensures order == OrderLastChanged || order == OrderChangedDate
  {
    if version.Some? && version.value in OldStyleVersions then OrderLastChanged else OrderChangedDate
  }

  /** `metadata()`: the version probe. */
  function Metadata(): (r: Request)
    ensures r.cgi == CgiBug
    ensures r.params.Keys == {ParamContentType} && r.params[ParamContentType] == [ContentTypeXml]
  {
    Request(CgiBug, map[ParamContentType := [ContentTypeXml]])
  }

  /** `buglist(from_date, version)`: the CSV summary of the bugs changed since `fromDate`. */
  function Buglist(fromDate: DateTime, version: Option<string>): (r: Request)
    ensures r.cgi == CgiBuglist
    ensures r.params.Keys == {ParamChangedFrom, ParamContentType, ParamOrder}
    ensures r.params[ParamChangedFrom] == [Format(fromDate)]
    ensures r.params[ParamContentType] == [ContentTypeCsv]
    ensures r.params[ParamOrder] == [BuglistOrder(version)]
  {
    Request(CgiBuglist, map[ParamChangedFrom := [Format(fromDate)],
                            ParamContentType := [ContentTypeCsv],
                            ParamOrder := [BuglistOrder(version)]])
  }

  /** `bugs(*bug_ids)`: the XML details of the given bugs, without attachment data. */
  function Bugs(bugIds: seq<string>): (r: Request)
    ensures r.cgi == CgiBug
    ensures r.params.Keys == {ParamBugId, ParamContentType, ParamExcludeField}
    ensures r.params[ParamBugId] == bugIds
    ensures r.params[ParamContentType] == [ContentTypeXml]
    ensures r.params[ParamExcludeField] == ["attachmentdata"]
  {
    Request(CgiBug, map[ParamBugId := bugIds,
                        ParamContentType := [ContentTypeXml],
                        ParamExcludeField := ["attachmentdata"]])
  }

  /** `bug_activity(bug_id)`: the activity page of one bug. */
  function BugActivity(bugId: string): (r: Request)
    ensures r.cgi == CgiBugActivity
    ensures r.params.Keys == {ParamBugId} && r.params[ParamBugId] == [bugId]
  {
    Request(CgiBugActivity, map[ParamBugId := [bugId]])
  }

  /** The four calls can be told apart by the request alone, and a buglist
      request names its starting date exactly: distinct dates give distinct requests. */
  lemma {:induction false} RequestsDistinguishable(d: DateTime, d': DateTime, v: Option<string>, v': Option<string>,
                                                   ids: seq<string>, id: string)
    ensures Metadata() != Bugs(ids) && Metadata() != BugActivity(id) && Metadata() != Buglist(d, v)
    ensures Bugs(ids) != BugActivity(id) && Bugs(ids) != Buglist(d, v) && BugActivity(id) != Buglist(d, v)
    ensures Buglist(d, v) == Buglist(d', v') ==> d == d'
  {
    assert ParamExcludeField in Bugs(ids).params.Keys;
    assert ParamExcludeField !in Metadata().params.Keys;
    if Buglist(d, v) == Buglist(d', v') {
      assert [Format(d)] == Buglist(d, v).params[ParamChangedFrom];
      FormatParses(d);
      FormatParses(d');
    }
  }

  /** With the default starting date the request reads `chfieldfrom=1970-01-01T00:00:00`. */
  lemma DefaultBuglistDate(version: Option<string>)
    ensures Buglist(Epoch, version).params[ParamChangedFrom] == ["1970-01-01T00:00:00"]
  {
    EpochFormat();
  }
}
