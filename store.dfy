/** The fault_info_log table seen as an abstract store: its rows in store
    order, and the three queries and the insert the handlers issue. */
module Store {
  import opened Wrappers
  import opened DateTimes

  /** One row. `kind` is the `type` column (`type` is a Dafny keyword);
      `end` is NULL for an announcement that is still going on. */
  datatype Record = Record(id: int, kind: string, service: string, begin: DateTime,
                           end: Option<DateTime>, detail: string)

  /** What get_info returns: the matching row, or the {"": ""} dict it puts
      in place of a missing one. */
  datatype Row = Found(record: Record) | Blank

  /** The table's rows in the order a bare SELECT returns them. */
  type Table = seq<Record>

  /** `id` is the primary key. */
  predicate UniqueIds(t: Table) {
    forall i, j :: 0 <= i < j < |t| ==> t[i].id != t[j].id
  }

  predicate HasId(t: Table, id: int) {
    exists i :: 0 <= i < |t| && t[i].id == id
  }

  /** SELECT * ... WHERE id=%s, fetchone(). */
  function FetchById(t: Table, id: int): (r: Option<Record>)
    ensures r.Some? <==> HasId(t, id)
    ensures r.Some? ==> r.value in t && r.value.id == id
  {
    if t == [] then None
    else if t[0].id == id then Some(t[0])
    else
      var r := FetchById(t[1..], id);
      assert HasId(t[1..], id) ==> HasId(t, id) by {
        if HasId(t[1..], id) {
          var i :| 0 <= i < |t[1..]| && t[1..][i].id == id;
          assert t[i + 1].id == id;
        }
      }
      r
  }

  /** get_info(id): the row with that id, or the blank stand-in. */
  function GetInfo(t: Table, id: int): (r: Row)
    ensures r.Blank? <==> !HasId(t, id)
    ensures r.Found? ==> r.record in t && r.record.id == id
  {
    match FetchById(t, id)
    case Some(rec) => Found(rec)
    case None => Blank
  }

  /** get_latest_info: SELECT ... ORDER BY id DESC limit 1, fetchone();
      None on an empty table. */
  function FetchLatest(t: Table): (r: Option<Record>)
    ensures r.None? <==> t == []
    ensures r.Some? ==> r.value in t
    ensures r.Some? ==> forall i :: 0 <= i < |t| ==> t[i].id <= r.value.id
  {
    if t == [] then None
    else
      match FetchLatest(t[1..])
      case None => Some(t[0])
      case Some(rec) => if rec.id < t[0].id then Some(t[0]) else Some(rec)
  }

  /** The five column values `save` passes to its INSERT. */
  datatype InsertValues = InsertValues(kind: string, service: string, begin: string,
                                       end: Option<string>, detail: string)

  /** The values `save` binds: params['type'], params['service'],
      params['begin'], params.get('end', None), and params['detail'] with ''
      in place of a missing one. */
  function SaveValues(params: map<string, Option<string>>): (v: InsertValues)
    requires forall k :: k in ["type", "service", "begin"] ==> k in params && params[k].Some?
    ensures v.kind == params["type"].value && v.service == params["service"].value
    ensures v.begin == params["begin"].value
    ensures v.end.Some? <==> "end" in params && params["end"].Some?
    ensures "end" in params && params["end"].Some? ==> v.end == params["end"]
    ensures "detail" in params && params["detail"].Some? ==> v.detail == params["detail"].value
    ensures "detail" !in params || params["detail"].None? ==> v.detail == ""
  {
    InsertValues(
      params["type"].value,
      params["service"].value,
      params["begin"].value,
      if "end" in params then params["end"] else None,
      if "detail" in params && params["detail"].Some? then params["detail"].value else "")
  }

  /** The row the store holds after the INSERT: the id it assigned, and the
      submitted begin and end text read into datetimes by `toTime`, the
      store's own conversion for its DATETIME columns. */
  function NewRecord(id: int, v: InsertValues, toTime: string -> DateTime): (r: Record)
    ensures r.id == id && r.kind == v.kind && r.service == v.service && r.detail == v.detail
    ensures r.begin == toTime(v.begin)
    ensures r.end.None? <==> v.end.None?
    ensures v.end.Some? ==> r.end == Some(toTime(v.end.value))
  {
    Record(id, v.kind, v.service, toTime(v.begin),
           match v.end { case Some(e) => Some(toTime(e)) case None => None }, v.detail)
  }

  /** With unique ids, the lookup by a row's id finds that very row. */
  lemma {:induction false} FetchFindsRow(t: Table, i: nat)
    requires UniqueIds(t) && i < |t|
    ensures FetchById(t, t[i].id) == Some(t[i])
  {
    if i > 0 {
      assert t[0].id != t[i].id;
      assert t[1..][i - 1] == t[i];
      assert UniqueIds(t[1..]) by {
        forall a, b | 0 <= a < b < |t[1..]| ensures t[1..][a].id != t[1..][b].id {
          assert t[1..][a] == t[a + 1] && t[1..][b] == t[b + 1];
        }
      }
      FetchFindsRow(t[1..], i - 1);
    }
  }

  /** Inserting a row whose id the table does not hold yet keeps ids unique,
      and get_info then returns the new row, not the blank stand-in. */
  lemma InsertThenGetInfo(t: Table, rec: Record)
    requires UniqueIds(t) && !HasId(t, rec.id)
    ensures UniqueIds(t + [rec])
    ensures GetInfo(t + [rec], rec.id) == Found(rec)
  {
    var t' := t + [rec];
    assert UniqueIds(t') by {
      forall a, b | 0 <= a < b < |t'| ensures t'[a].id != t'[b].id {
        if b == |t| {
          assert t'[a] == t[a];
        }
      }
    }
    FetchFindsRow(t', |t|);
  }
}
