/** The status formatter: get_status, type_to_jp, the `verb` phrase table
    and get_uri. `now` is a parameter in place of datetime.now(). */
module Status {
  import opened Wrappers
  import opened Text
  import opened DateTimes
  import opened Store

  /** The `verb` table: a phrase per type and phase key. */
  const Verbs: map<string, string> := map[
    "maintenance" := "メンテナンスを行っています",
    "maintenance-will" := "メンテナンスを行います",
    "maintenance-cont" := "メンテナンスを行っています",
    "maintenance-done" := "メンテナンスを行いました",
    "event" := "障害が発生しています",
    "event-will" := "",
    "event-cont" := "障害が発生しています",
    "event-done" := "障害が発生しました"
  ]

  /** The two announcement types the formatter knows. */
  predicate IsKnownType(t: string) {
    t == "maintenance" || t == "event"
  }

  /** type_to_jp: the Japanese noun for a type; for any other type the
      function falls off its end and yields None. */
  function TypeToJp(t: string): (r: Option<string>)
    ensures r.Some? <==> IsKnownType(t)
    ensures t == "maintenance" ==> r == Some("メンテナンス")
    ensures t == "event" ==> r == Some("障害")
  {
    if t == "event" then Some("障害")
    else if t == "maintenance" then Some("メンテナンス")
    else None
  }

  /** The phase an announcement is in at `now`; `Current` is the case where
      get_status adds no suffix. */
  datatype Phase = Will | Cont | Done | Current

  /** The if/elif chain of get_status that picks the suffix. */
  function PhaseOf(begin: DateTime, end: Option<DateTime>, now: DateTime): (p: Phase)
    ensures p == Will <==> Before(now, begin)
    ensures p == Cont <==> !Before(now, begin) && end.None?
    ensures p == Done <==> !Before(now, begin) && end.Some? && Before(end.value, now)
    ensures p == Current <==> !Before(now, begin) && end.Some? && !Before(end.value, now)
  {
    if Before(now, begin) then Will
    else if end.None? then Cont
    else if Before(end.value, now) then Done
    else Current
  }

  function Suffix(p: Phase): string {
    match p
    case Will => "-will"
    case Cont => "-cont"
    case Done => "-done"
    case Current => ""
  }

  /** The key get_status looks up in the verb table. */
  function PhaseKey(t: string, p: Phase): string {
    t + Suffix(p)
  }

  /** get_uri: the base URI, "detail/", and the id in decimal. */
  function GetUri(baseUri: string, id: int): (uri: string)
    ensures |uri| > |baseUri| + 7
    ensures uri[..|baseUri|] == baseUri && uri[|baseUri|..|baseUri| + 7] == "detail/"
    ensures ParseInt(uri[|baseUri| + 7..]) == Some(id)
  {
    var uri := baseUri + "detail/" + IntToString(id);
    assert uri[|baseUri| + 7..] == IntToString(id);
    IntToStringRoundTrip(id);
    uri
  }

  /** The KeyError get_status raises: for `type` on the blank stand-in row,
      or for a phase key the verb table lacks. */
  datatype StatusError = KeyError(key: string)

  /** The end timestamp and the connector phrase, both blank for an
      announcement without an end. */
  function EndText(end: Option<DateTime>): string {
    match end
    case None => ""
    case Some(e) => IsoText(e)
  }

  function Connector(end: Option<DateTime>): string {
    if end.None? then "" else "の間に"
  }

  /** The text before the end segment: the noun in brackets, begin, and 〜. */
  function Head(noun: string, begin: DateTime): string {
    "【" + noun + "】" + IsoText(begin) + "〜"
  }

  /** The text after the verb phrase: the service and the detail link. */
  function Tail(service: string, uri: string): string {
    (". 影響サービス:" + service) + (" 詳細:" + uri)
  }

  /** The middle: the end segment, the connector, and the verb phrase. */
  function Middle(end: Option<DateTime>, verb: string): string {
    EndText(end) + Connector(end) + "、" + verb
  }

  /** The format string of get_status with its seven arguments filled in. */
  function Message(noun: string, begin: DateTime, end: Option<DateTime>, verb: string,
                   service: string, uri: string): (s: string)
    ensures Head(noun, begin) <= s
    ensures EndsWith(s, Tail(service, uri))
    ensures EndsWith(s, " 詳細:" + uri)
  {
    var h, m, t := Head(noun, begin), Middle(end, verb), Tail(service, uri);
    assert (h + m + t)[..|h|] == h;
    var q := " 詳細:" + uri;
    assert EndsWith(q, q);
    EndsWithAppend(". 影響サービス:" + service, q, q);
    assert EndsWith(t, t);
    EndsWithAppend(h + m, t, t);
    EndsWithAppend(h + m, t, q);
    h + m + t
  }

  /** get_status(info) at time `now`. A type type_to_jp does not know shows
      as "None", which is what str.format writes for Python's None. */
  function GetStatus(baseUri: string, row: Row, now: DateTime): (r: Result<string, StatusError>)
    ensures row.Blank? ==> r == Err(KeyError("type"))
    ensures row.Found? ==>
      var key := PhaseKey(row.record.kind, PhaseOf(row.record.begin, row.record.end, now));
      && (r.Ok? <==> key in Verbs)
      && (r.Err? ==> r.error == KeyError(key))
  {
    match row
    case Blank => Err(KeyError("type"))
    case Found(info) =>
      var key := PhaseKey(info.kind, PhaseOf(info.begin, info.end, now));
      if key !in Verbs then Err(KeyError(key))
      else Ok(Message(TypeToJp(info.kind).GetOr("None"), info.begin, info.end, Verbs[key],
                      info.service, GetUri(baseUri, info.id)))
  }

  predicate EndsWith(s: string, suffix: string) {
    |suffix| <= |s| && s[|s| - |suffix|..] == suffix
  }

  lemma EndsWithAppend(a: string, s: string, suffix: string)
    requires EndsWith(s, suffix)
    ensures EndsWith(a + s, suffix)
  {
    assert (a + s)[|a + s| - |suffix|..] == s[|s| - |suffix|..];
  }

  /** Without an end, the end segment of a message is just "、" and the
      verb; with one, the end time and の間に come first. */
  lemma MiddleText(end: Option<DateTime>, verb: string)
    ensures end.None? ==> Middle(end, verb) == "、" + verb
    ensures end.Some? ==> Middle(end, verb) == IsoText(end.value) + "の間に" + "、" + verb
  {
    if end.None? {
      assert EndText(end) + Connector(end) == "";
    }
  }

  /** Every status get_status returns opens with the bracketed noun (or
      "None") and the begin time, and closes with the affected service and
      the detail link of the row's id. */
  lemma MessageFrame(baseUri: string, info: Record, now: DateTime)
    requires PhaseKey(info.kind, PhaseOf(info.begin, info.end, now)) in Verbs
    ensures GetStatus(baseUri, Found(info), now).Ok?
    ensures Head(TypeToJp(info.kind).GetOr("None"), info.begin)
            <= GetStatus(baseUri, Found(info), now).value
    ensures EndsWith(GetStatus(baseUri, Found(info), now).value,
                     Tail(info.service, GetUri(baseUri, info.id)))
  {
    var key := PhaseKey(info.kind, PhaseOf(info.begin, info.end, now));
    StatusText(baseUri, info, now, key);
  }

  /** The whole status get_status returns: between the head and the tail,
      only "、" and the verb phrase when the row has no end, and the end time
      with の間に before them when it has one. */
  lemma MessageEndSegment(baseUri: string, info: Record, now: DateTime)
    requires PhaseKey(info.kind, PhaseOf(info.begin, info.end, now)) in Verbs
    ensures var key := PhaseKey(info.kind, PhaseOf(info.begin, info.end, now));
      var head := Head(TypeToJp(info.kind).GetOr("None"), info.begin);
      var tail := Tail(info.service, GetUri(baseUri, info.id));
      && GetStatus(baseUri, Found(info), now).Ok?
      && (info.end.None? ==>
            GetStatus(baseUri, Found(info), now).value == head + ("、" + Verbs[key]) + tail)
      && (info.end.Some? ==>
            GetStatus(baseUri, Found(info), now).value
            == head + (IsoText(info.end.value) + "の間に" + "、" + Verbs[key]) + tail)
  {
    var key := PhaseKey(info.kind, PhaseOf(info.begin, info.end, now));
    StatusText(baseUri, info, now, key);
    MiddleText(info.end, Verbs[key]);
  }

  /** For the two known types every phase key is in the verb table, so the
      lookup never raises; the bare and the ongoing phrase coincide, and the
      "event will happen" phrase is deliberately blank. */
  lemma KnownTypeKeysResolve(t: string, p: Phase)
    requires IsKnownType(t)
    ensures PhaseKey(t, p) in Verbs
    ensures PhaseKey(t, Current) in Verbs && PhaseKey(t, Cont) in Verbs
    ensures Verbs[PhaseKey(t, Current)] == Verbs[PhaseKey(t, Cont)]
    ensures PhaseKey("event", Will) in Verbs && Verbs[PhaseKey("event", Will)] == ""
  {
    assert PhaseKey("event", Will) == "event-will";
    assert PhaseKey(t, Current) == t;
    if t == "maintenance" {
      assert PhaseKey(t, Cont) == "maintenance-cont";
      match p
      case Will => assert PhaseKey(t, p) == "maintenance-will";
      case Cont =>
      case Done => assert PhaseKey(t, p) == "maintenance-done";
      case Current =>
    } else {
      assert PhaseKey(t, Cont) == "event-cont";
      match p
      case Will =>
      case Cont =>
      case Done => assert PhaseKey(t, p) == "event-done";
      case Current =>
    }
  }

  /** A suffixed key is in the verb table only for the two known types. */
  lemma {:induction false} SuffixedKeyNeedsKnownType(t: string, p: Phase)
    requires p != Current && PhaseKey(t, p) in Verbs
    ensures IsKnownType(t)
  {
    var key := PhaseKey(t, p);
    assert |Suffix(p)| == 5;
    assert key[..|t|] == t;
    assert key in Verbs.Keys;
    if key == "maintenance-will" || key == "maintenance-cont" || key == "maintenance-done" {
      assert |t| == 11;
      assert t == key[..11] == "maintenance";
    } else if key == "event-will" || key == "event-cont" || key == "event-done" {
      assert |t| == 5;
      assert t == key[..5] == "event";
    } else {
      assert false;
    }
  }

  /** A row of any other type makes get_status raise, unless the type is
      itself a verb-table key and no suffix is added. */
  lemma UnknownTypeFails(baseUri: string, info: Record, now: DateTime)
    requires !IsKnownType(info.kind)
    requires info.kind !in Verbs || PhaseOf(info.begin, info.end, now) != Current
    ensures TypeToJp(info.kind) == None
    ensures GetStatus(baseUri, Found(info), now).Err?
  {
    var p := PhaseOf(info.begin, info.end, now);
    assert PhaseKey(info.kind, Current) == info.kind;
    if PhaseKey(info.kind, p) in Verbs {
      SuffixedKeyNeedsKnownType(info.kind, p);
    }
  }

  /** The text get_status returns for a row whose phase key resolves. */
  lemma StatusText(baseUri: string, info: Record, now: DateTime, key: string)
    requires key == PhaseKey(info.kind, PhaseOf(info.begin, info.end, now)) && key in Verbs
    ensures GetStatus(baseUri, Found(info), now)
         == Ok(Message(TypeToJp(info.kind).GetOr("None"), info.begin, info.end, Verbs[key],
                       info.service, GetUri(baseUri, info.id)))
  {
  }

  /** The exception: a type spelled like a verb-table key (say "event-done")
      in the bare phase formats without error, with "None" as its noun. */
  lemma KeyNamedTypeRendersNone(baseUri: string, info: Record, now: DateTime)
    requires info.kind in Verbs && !IsKnownType(info.kind)
    requires PhaseOf(info.begin, info.end, now) == Current
    ensures GetStatus(baseUri, Found(info), now).Ok?
    ensures Head("None", info.begin) <= GetStatus(baseUri, Found(info), now).value
  {
    var key := PhaseKey(info.kind, PhaseOf(info.begin, info.end, now));
    assert key == info.kind;
    assert TypeToJp(info.kind).GetOr("None") == "None";
    StatusText(baseUri, info, now, key);
  }

  /** The end segment and the connector are blank together, exactly when the
      announcement has no end. */
  lemma EndSegmentsBlankIffOpen(end: Option<DateTime>)
    ensures EndText(end) == "" <==> end.None?
    ensures Connector(end) == "" <==> end.None?
  {
  }

  /** A maintenance announced ahead of time, without an end: the "will"
      phrase and no end segment. */
  lemma MaintenanceAhead(baseUri: string, info: Record, now: DateTime)
    requires info.kind == "maintenance" && info.end.None? && Before(now, info.begin)
    ensures GetStatus(baseUri, Found(info), now)
         == Ok(Head("メンテナンス", info.begin) + ("、" + "メンテナンスを行います")
               + Tail(info.service, GetUri(baseUri, info.id)))
  {
    var key := PhaseKey(info.kind, PhaseOf(info.begin, info.end, now));
    assert key == "maintenance-will";
    assert key in Verbs && Verbs[key] == "メンテナンスを行います";
    StatusText(baseUri, info, now, key);
    MiddleText(info.end, "メンテナンスを行います");
  }

  /** An event under way without an end, at any `now` from its begin on:
      the "ongoing" phrase. */
  lemma EventOngoing(baseUri: string, info: Record, now: DateTime)
    requires info.kind == "event" && info.end.None? && !Before(now, info.begin)
    ensures GetStatus(baseUri, Found(info), now)
         == Ok(Head("障害", info.begin) + ("、" + "障害が発生しています")
               + Tail(info.service, GetUri(baseUri, info.id)))
  {
    var key := PhaseKey(info.kind, PhaseOf(info.begin, info.end, now));
    assert key == "event-cont";
    assert key in Verbs && Verbs[key] == "障害が発生しています";
    StatusText(baseUri, info, now, key);
    MiddleText(info.end, "障害が発生しています");
  }
}
