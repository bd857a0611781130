/** The partial-update statement `update` builds: one "key=%s" assignment
    and one bound value per field that is not None, in iteration order,
    and the row id bound last for the WHERE clause. */
module UpdateBuilder {
  import opened Wrappers

  /** A value bound to the statement: a submitted field, or the row id. */
  datatype SqlArg = Field(text: string) | RowId(id: int)

  /** One (key, value) pair of params.iteritems(), in the order the dict
      yields them. */
  type Entry = (string, Option<string>)

  /** The entries whose value is not None, value unwrapped, order kept. */
  function Kept(params: seq<Entry>): (kept: seq<(string, string)>)
    ensures |kept| <= |params|
    ensures forall i :: 0 <= i < |kept| ==> (kept[i].0, Some(kept[i].1)) in params
    decreases |params|
  {
    if params == [] then []
    else
      var last := params[|params| - 1];
      Kept(params[..|params| - 1]) + (if last.1.Some? then [(last.0, last.1.value)] else [])
  }

  /** key + '=%s' for each kept entry. */
  function Assignments(kept: seq<(string, string)>): (keys: seq<string>)
    ensures |keys| == |kept|
    ensures forall i :: 0 <= i < |kept| ==> keys[i] == kept[i].0 + "=%s"
  {
    if kept == [] then []
    else Assignments(kept[..|kept| - 1]) + [kept[|kept| - 1].0 + "=%s"]
  }

  /** The bound value of each kept entry. */
  function Arguments(kept: seq<(string, string)>): (args: seq<SqlArg>)
    ensures |args| == |kept|
    ensures forall i :: 0 <= i < |kept| ==> args[i] == Field(kept[i].1)
  {
    if kept == [] then []
    else Arguments(kept[..|kept| - 1]) + [Field(kept[|kept| - 1].1)]
  }

  /** The loop of `update`: an assignment and a value for every entry that
      is not None, then the id appended to the values. */
  method BuildSet(params: seq<Entry>, id: int) returns (keys: seq<string>, values: seq<SqlArg>)
    ensures keys == Assignments(Kept(params))
    ensures values == Arguments(Kept(params)) + [RowId(id)]
  {
    keys, values := [], [];
    for i := 0 to |params|
      invariant keys == Assignments(Kept(params[..i]))
      invariant values == Arguments(Kept(params[..i]))
    {
      var (key, value) := params[i];
      assert params[..i + 1][..i] == params[..i];
      if value.Some? {
        keys := keys + [key + "=%s"];
        values := values + [Field(value.value)];
      }
    }
    assert params[..|params|] == params;
    values := values + [RowId(id)];
  }

  /** ', '.join(parts). */
  function Join(sep: string, parts: seq<string>): string {
    if parts == [] then ""
    else if |parts| == 1 then parts[0]
    else parts[0] + sep + Join(sep, parts[1..])
  }

  /** The statement text `update` hands to the cursor. */
  function UpdateSql(keys: seq<string>): (sql: string)
    ensures "UPDATE fault_info_log SET " <= sql
    ensures Percents(sql) == Percents(Join(", ", keys)) + 1
  {
    var head, list, where := "UPDATE fault_info_log SET ", Join(", ", keys), WhereClause();
    StatementTextPercents();
    ThreeParts(head, list, where);
    head + list + where
  }

  /** A concatenation of three parts starts with the first and counts the
      characters of all three. */
  lemma ThreeParts(a: string, b: string, c: string)
    ensures a <= a + b + c
    ensures Percents(a + b + c) == Percents(a) + Percents(b) + Percents(c)
  {
    assert (a + b + c)[..|a|] == a;
    assert multiset(a + b + c) == multiset(a) + multiset(b) + multiset(c);
  }

  /** The WHERE clause of the statement, with its one placeholder for the id. */
  function WhereClause(): string {
    "\n" + Indent() + "WHERE id=" + "%s" + ";\n" + Indent()
  }

  /** The twelve spaces the triple-quoted statement carries on its later lines. */
  function Indent(): string {
    seq(12, _ => ' ')
  }

  /** The number of '%' characters: each "%s" takes one bound value. */
  function Percents(s: string): nat {
    multiset(s)['%']
  }

  /** A kept pair is exactly an entry whose value is not None. */
  lemma {:induction false} KeptMembers(params: seq<Entry>, k: string, v: string)
    ensures (k, v) in Kept(params) <==> (k, Some(v)) in params
    decreases |params|
  {
    if params != [] {
      var init := params[..|params| - 1];
      assert params == init + [params[|params| - 1]];
      KeptMembers(init, k, v);
    }
  }

  /** Kept keeps the iteration order: it maps a concatenation to the
      concatenation of its parts. */
  lemma {:induction false} KeptAppend(a: seq<Entry>, b: seq<Entry>)
    ensures Kept(a + b) == Kept(a) + Kept(b)
    decreases |b|
  {
    if b == [] {
      assert a + b == a;
    } else {
      var b' := b[..|b| - 1];
      assert (a + b)[..|a + b| - 1] == a + b';
      KeptAppend(a, b');
    }
  }

  /** No entry but None: nothing is kept. All entries set: all are kept. */
  lemma KeptExtremes(params: seq<Entry>)
    ensures Kept(params) == [] <==> forall i :: 0 <= i < |params| ==> params[i].1.None?
    ensures (forall i :: 0 <= i < |params| ==> params[i].1.Some?) ==> |Kept(params)| == |params|
  {
    KeptEmptyIffAllNone(params);
    if forall i :: 0 <= i < |params| ==> params[i].1.Some? {
      KeptAllSet(params);
    }
  }

  lemma {:induction false} KeptEmptyIffAllNone(params: seq<Entry>)
    ensures Kept(params) == [] <==> forall i :: 0 <= i < |params| ==> params[i].1.None?
    decreases |params|
  {
    if params != [] {
      var init, last := params[..|params| - 1], params[|params| - 1];
      KeptEmptyIffAllNone(init);
      assert forall i :: 0 <= i < |init| ==> init[i] == params[i];
      assert Kept(params) == [] <==> Kept(init) == [] && last.1.None?;
    }
  }

  lemma {:induction false} KeptAllSet(params: seq<Entry>)
    requires forall i :: 0 <= i < |params| ==> params[i].1.Some?
    ensures |Kept(params)| == |params|
    decreases |params|
  {
    if params != [] {
      var init := params[..|params| - 1];
      assert forall i :: 0 <= i < |init| ==> init[i] == params[i];
      KeptAllSet(init);
    }
  }

  lemma {:induction false} JoinPercents(parts: seq<string>)
    requires forall i :: 0 <= i < |parts| ==> Percents(parts[i]) == 1
    ensures Percents(Join(", ", parts)) == |parts|
    decreases |parts|
  {
    if |parts| > 1 {
      JoinPercents(parts[1..]);
      assert multiset(", ")['%'] == 0;
    }
  }

  /** With field names free of '%', the statement has exactly as many
      placeholders as there are bound values: one per assignment, plus the
      one of the WHERE clause. */
  lemma UpdatePlaceholdersMatch(params: seq<Entry>, id: int)
    requires forall i :: 0 <= i < |params| ==> Percents(params[i].0) == 0
    ensures Percents(UpdateSql(Assignments(Kept(params))))
         == |Arguments(Kept(params)) + [RowId(id)]|
  {
    var kept := Kept(params);
    var keys := Assignments(kept);
    forall i | 0 <= i < |keys| ensures Percents(keys[i]) == 1 {
      KeptMembers(params, kept[i].0, kept[i].1);
      var j :| 0 <= j < |params| && params[j] == (kept[i].0, Some(kept[i].1));
      assert multiset("=%s")['%'] == 1;
    }
    JoinPercents(keys);
  }

  /** The fixed text of the statement holds one placeholder, in WHERE. */
  lemma StatementTextPercents()
    ensures Percents("UPDATE fault_info_log SET ") == 0
    ensures Percents(WhereClause()) == 1
  {
    HeadPercents();
    WherePiecesPercents();
    var w := WhereClause();
    assert multiset(w) == multiset("\n") + multiset(Indent()) + multiset("WHERE id=") + multiset("%s")
                          + multiset(";\n") + multiset(Indent());
  }

  lemma HeadPercents()
    ensures Percents("UPDATE fault_info_log SET ") == 0
  {
    NoPercentIn("UPDATE fault_info_log SET ");
  }

  lemma WherePiecesPercents()
    ensures Percents("\n") == 0 && Percents(Indent()) == 0 && Percents("WHERE id=") == 0
    ensures Percents(";\n") == 0 && Percents("%s") == 1
  {
    NoPercentIn("\n");
    NoPercentIn(Indent());
    NoPercentIn("WHERE id=");
    NoPercentIn(";\n");
    OnePlaceholder();
  }

  lemma OnePlaceholder()
    ensures Percents("%s") == 1
  {
    assert "%s" == ['%'] + ['s'];
    assert multiset("%s") == multiset{'%'} + multiset{'s'};
  }

  lemma NoPercentIn(s: string)
    requires forall i :: 0 <= i < |s| ==> s[i] != '%'
    ensures Percents(s) == 0
  {
    assert '%' !in s;
  }

  /** With every value None the SET list is empty and the statement reads
      "SET" straight into "WHERE", which the database rejects. */
  lemma EmptyUpdateHasNoAssignments(params: seq<Entry>, id: int)
    requires forall i :: 0 <= i < |params| ==> params[i].1.None?
    ensures Assignments(Kept(params)) == []
    ensures Arguments(Kept(params)) + [RowId(id)] == [RowId(id)]
    ensures UpdateSql(Assignments(Kept(params))) == "UPDATE fault_info_log SET " + WhereClause()
  {
    KeptExtremes(params);
    EmptyJoinSql();
  }

  lemma EmptyJoinSql()
    ensures UpdateSql([]) == "UPDATE fault_info_log SET " + WhereClause()
  {
    var head := "UPDATE fault_info_log SET ";
    assert Join(", ", []) == "";
    assert head + "" == head;
  }
}
