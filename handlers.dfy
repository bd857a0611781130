/** The create and read handlers (api_post_info, api_get_info) as decisions
    over abstract inputs: the submitted form, the table, the store's answer
    to the INSERT, the notifier's answer, and the current time. */
module Handlers {
  import opened Wrappers
  import opened DateTimes
  import opened Forms
  import opened Store
  import opened Status

  /** The settings of config.json the two handlers read. */
  datatype Config = Config(apiKey: string, baseUri: string)

  const RequiredPostKeys: seq<string> := ["type", "service", "begin", "apikey"]
  const OptionalPostKeys: seq<string> := ["end", "detail"]

  /** What `save` came to: an exception (caught by the bare except), or the
      id the store assigned. */
  datatype SaveOutcome = SaveFailed | Saved(id: int)

  /** The bodies of the create handler: the five response helpers, and
      Bottle's error page when an exception escapes the handler. */
  datatype PostResponse =
    | Success
    | ApiKeyNotValid
    | BadRequest(key: string)
    | CannotSave
    | CannotTweet
    | Uncaught

  /** The HTTP status each helper sets, and Bottle's 500 for an escaped exception. */
  function PostStatusCode(r: PostResponse): (code: int)
    ensures code == 200 || code == 400 || code == 500
    ensures code == 200 <==> r == Success || r == ApiKeyNotValid
    ensures code == 400 <==> r.BadRequest?
    ensures code == 500 <==> r == CannotSave || r == CannotTweet || r == Uncaught
  {
    match r
    case Success => 200
    case ApiKeyNotValid => 200
    case BadRequest(_) => 400
    case CannotSave => 500
    case CannotTweet => 500
    case Uncaught => 500
  }

  /** The response, the table afterwards, and the status text handed to the
      notifier (None when tweet was not called). */
  datatype PostResult = PostResult(response: PostResponse, table: Table, tweeted: Option<string>)

  /** Every required field is present, so require() does not raise. */
  predicate HasRequired(form: Form) {
    "type" in form && "service" in form && "begin" in form && "apikey" in form
  }

  /** Every required field is present and the shared secret matches. */
  predicate Accepted(cfg: Config, form: Form) {
    HasRequired(form) && form["apikey"] == cfg.apiKey
  }

  /** The row the store holds for an accepted form under the id it assigned. */
  function ExpectedRecord(form: Form, id: int, toTime: string -> DateTime): Record
    requires HasRequired(form)
  {
    Record(id, form["type"], form["service"], toTime(form["begin"]),
           if "end" in form then Some(toTime(form["end"])) else None,
           if "detail" in form then form["detail"] else "")
  }

  /** The dict api_post_info works on: require(RequiredPostKeys) updated
      with optional(OptionalPostKeys); the name of the first missing required
      field when require() raises. */
  function PostParams(form: Form): (r: Result<map<string, Option<string>>, string>)
    ensures r.Err? <==> !HasRequired(form)
    ensures r.Err? ==>
      && r.error !in form
      && (exists i :: 0 <= i < |RequiredPostKeys| && RequiredPostKeys[i] == r.error
                      && forall j :: 0 <= j < i ==> RequiredPostKeys[j] in form)
    ensures r.Ok? ==> ParamsOf(form, r.value)
  {
    match Required(form, RequiredPostKeys)
    case Err(key) => Err(key)
    case Ok(required) =>
      assert "type" == RequiredPostKeys[0] && "service" == RequiredPostKeys[1];
      assert "begin" == RequiredPostKeys[2] && "apikey" == RequiredPostKeys[3];
      assert "end" == OptionalPostKeys[0] && "detail" == OptionalPostKeys[1];
      Ok(Merge(required, Optionals(form, OptionalPostKeys)))
  }

  /** The merged dict holds the four required fields and the two optional
      ones as submitted, None for an optional field that was not sent. */
  predicate ParamsOf(form: Form, params: map<string, Option<string>>) {
    && HasRequired(form)
    && (forall k :: k in ["type", "service", "begin", "apikey"] ==>
          k in params && params[k] == Some(form[k]))
    && (forall k :: k in ["end", "detail"] ==> k in params && params[k] == Get(form, k))
  }

  /** The tail of api_post_info once the row is stored: fetch it back, format
      its status and tweet it; a KeyError from get_status escapes. */
  function Announce(cfg: Config, table: Table, id: int, now: DateTime, tweetOk: bool): (r: PostResult)
    ensures r.table == table
    ensures r.response == Success || r.response == CannotTweet || r.response == Uncaught
    ensures r.response == Uncaught <==> GetStatus(cfg.baseUri, GetInfo(table, id), now).Err?
    ensures r.tweeted.Some? <==> r.response != Uncaught
    ensures r.tweeted.Some? ==> Ok(r.tweeted.value) == GetStatus(cfg.baseUri, GetInfo(table, id), now)
    ensures r.tweeted.Some? ==> (r.response == Success <==> tweetOk)
  {
    match GetStatus(cfg.baseUri, GetInfo(table, id), now)
    case Err(_) => PostResult(Uncaught, table, None)
    case Ok(status) => PostResult(if tweetOk then Success else CannotTweet, table, Some(status))
  }

  /** api_post_info: validate, check the key, save, format and notify, in
      that order, each failure answering at once. */
  function PostInfo(cfg: Config, form: Form, table: Table, toTime: string -> DateTime,
                    save: SaveOutcome, now: DateTime, tweetOk: bool): (r: PostResult)
    // a missing field is reported first, by name, the way require() found it
    ensures r.response.BadRequest? <==> !HasRequired(form)
    ensures r.response.BadRequest? ==>
      && r.response.key !in form
      && (exists i :: 0 <= i < |RequiredPostKeys| && RequiredPostKeys[i] == r.response.key
                      && forall j :: 0 <= j < i ==> RequiredPostKeys[j] in form)
    // then the shared secret
    ensures r.response == ApiKeyNotValid <==> HasRequired(form) && form["apikey"] != cfg.apiKey
    // then the save
    ensures r.response == CannotSave <==> Accepted(cfg, form) && save == SaveFailed
    // nothing is stored and nothing is sent on any of those three answers
    ensures r.response.BadRequest? || r.response == ApiKeyNotValid || r.response == CannotSave
      ==> r.table == table && r.tweeted == None
    // past them, the row is stored, with '' for a missing detail
    ensures Accepted(cfg, form) && save.Saved? ==>
      r.table == table + [ExpectedRecord(form, save.id, toTime)]
    // the answer is Success exactly when the notifier accepted the status
    ensures r.response == Success || r.response == CannotTweet ==> r.tweeted.Some?
    ensures r.tweeted.Some? ==> (r.response == Success <==> tweetOk)
  {
    match PostParams(form)
    case Err(key) => PostResult(BadRequest(key), table, None)
    case Ok(params) =>
      if params["apikey"] != Some(cfg.apiKey) then PostResult(ApiKeyNotValid, table, None)
      else
        match save
        case SaveFailed => PostResult(CannotSave, table, None)
        case Saved(id) =>
          var row := NewRecord(id, SaveValues(params), toTime);
          assert row == ExpectedRecord(form, id, toTime);
          Announce(cfg, table + [row], id, now, tweetOk)
  }

  /** After an accepted save, get_info finds the new row, so the notifier is
      handed that row's status; for the two known types the status always
      formats and the answer depends on the notifier alone. */
  lemma PostTweetsStoredRow(cfg: Config, form: Form, table: Table, toTime: string -> DateTime,
                            id: int, now: DateTime, tweetOk: bool)
    requires UniqueIds(table) && !HasId(table, id)
    requires Accepted(cfg, form)
    ensures var row := ExpectedRecord(form, id, toTime);
      var r := PostInfo(cfg, form, table, toTime, Saved(id), now, tweetOk);
      && GetInfo(r.table, id) == Found(row)
      && UniqueIds(r.table)
      && (r.tweeted.Some? ==> Ok(r.tweeted.value) == GetStatus(cfg.baseUri, Found(row), now))
      && (IsKnownType(form["type"]) ==>
            r.tweeted.Some? && (r.response == Success <==> tweetOk))
  {
    var row := ExpectedRecord(form, id, toTime);
    InsertThenGetInfo(table, row);
    if IsKnownType(form["type"]) {
      KnownTypeKeysResolve(form["type"], PhaseOf(row.begin, row.end, now));
    }
  }

  /** A type the formatter does not know is stored and then makes the handler
      fail with an uncaught KeyError: no tweet, a 500 page, the row kept. */
  lemma PostUnknownTypeIsUncaught(cfg: Config, form: Form, table: Table, toTime: string -> DateTime,
                                  id: int, now: DateTime, tweetOk: bool)
    requires UniqueIds(table) && !HasId(table, id)
    requires Accepted(cfg, form)
    requires !IsKnownType(form["type"]) && form["type"] !in Verbs
    ensures var r := PostInfo(cfg, form, table, toTime, Saved(id), now, tweetOk);
      && r.response == Uncaught && PostStatusCode(r.response) == 500
      && r.tweeted == None
      && r.table == table + [ExpectedRecord(form, id, toTime)]
  {
    var row := ExpectedRecord(form, id, toTime);
    InsertThenGetInfo(table, row);
    UnknownTypeFails(cfg.baseUri, row, now);
  }

  /** What api_get_info serialises. */
  datatype Body = AllRows(rows: seq<Record>) | IssueRow(row: Row) | LatestRow(latest: Option<Record>)

  /** Status 200 with the body, or Bottle's 500 page when the JSON encoder's
      datetime hook raises. */
  datatype GetResponse = Ok200(body: Body) | Error500

  /** `all_ in ['1', 'True', 'true']`; an absent parameter is None, not in the list. */
  predicate AllRequested(all: Option<string>) {
    all.Some? && all.value in ["1", "True", "true"]
  }

  /** The records a body holds (none for the blank stand-in or an empty table). */
  function BodyRecords(b: Body): seq<Record> {
    match b
    case AllRows(rows) => rows
    case IssueRow(Found(rec)) => [rec]
    case IssueRow(Blank) => []
    case LatestRow(Some(rec)) => [rec]
    case LatestRow(None) => []
  }

  /** json.dumps succeeds when the hook can format every datetime. */
  predicate Serializable(recs: seq<Record>) {
    forall i :: 0 <= i < |recs| ==> Formats(recs[i])
  }

  /** The datetime hook can format the record's begin and end. */
  predicate Formats(rec: Record) {
    DefaultDatetimeFormat(rec.begin).Ok?
    && (rec.end.Some? ==> DefaultDatetimeFormat(rec.end.value).Ok?)
  }

  /** The three read modes of api_get_info. `toId` is how the store compares
      the `issue` text with the integer id column. */
  function SelectBody(table: Table, all: Option<string>, issue: Option<string>,
                      toId: string -> int): (b: Body)
    ensures AllRequested(all) ==> b == AllRows(table)
    ensures !AllRequested(all) && issue.Some? ==>
      b.IssueRow? && (b.row.Blank? <==> !HasId(table, toId(issue.value)))
      && (b.row.Found? ==> b.row.record in table && b.row.record.id == toId(issue.value))
    ensures !AllRequested(all) && issue.None? ==>
      b.LatestRow? && (b.latest.None? <==> table == [])
      && (b.latest.Some? ==> forall i :: 0 <= i < |table| ==> table[i].id <= b.latest.value.id)
    ensures forall i :: 0 <= i < |BodyRecords(b)| ==> BodyRecords(b)[i] in table
  {
    if AllRequested(all) then AllRows(table)
    else if issue.Some? then IssueRow(GetInfo(table, toId(issue.value)))
    else LatestRow(FetchLatest(table))
  }

  /** api_get_info: the selected rows as JSON with status 200. */
  function GetInfoHandler(table: Table, all: Option<string>, issue: Option<string>,
                          toId: string -> int): (r: GetResponse)
    ensures r.Ok200? <==> Serializable(BodyRecords(SelectBody(table, all, issue, toId)))
    ensures r.Ok200? ==> r.body == SelectBody(table, all, issue, toId)
  {
    var body := SelectBody(table, all, issue, toId);
    if Serializable(BodyRecords(body)) then Ok200(body) else Error500
  }

  /** The read handler never answers with an error status while every stored
      datetime is from 1900 on; a year before that makes the datetime hook
      raise and the answer a 500. */
  lemma GetIsOkForModernDates(table: Table, all: Option<string>, issue: Option<string>,
                              toId: string -> int)
    requires Serializable(table)
    ensures GetInfoHandler(table, all, issue, toId).Ok200?
  {
    var recs := BodyRecords(SelectBody(table, all, issue, toId));
    forall i | 0 <= i < |recs| ensures Formats(recs[i]) {
      assert recs[i] in table;
      var j :| 0 <= j < |table| && table[j] == recs[i];
      assert Formats(table[j]);
    }
    assert Serializable(recs);
  }

  /** issue=<id> returns exactly the row with that id when the table has one. */
  lemma GetIssueReturnsRow(table: Table, issue: string, toId: string -> int, k: nat)
    requires UniqueIds(table) && k < |table| && toId(issue) == table[k].id
    ensures SelectBody(table, None, Some(issue), toId) == IssueRow(Found(table[k]))
  {
    FetchFindsRow(table, k);
  }
}
