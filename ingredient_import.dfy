/** The `import_ingredients` management command: read (name, unit) rows from
    a CSV file, queue every row the catalog does not hold yet under the
    label `str(Ingredient(name, unit))`, insert the queue in one batch after
    the loop, and report how many were queued. The catalog is the set of
    (name, unit) pairs present; the file is its rows, or the error opening
    it raised. */
module IngredientImport {
  import opened Common
  import opened Strings
  import opened RecipeModels

  /** A CSV row: (name, unit). */
  type Row = (string, string)

  function RowLabel(r: Row): string {
    IngredientLabel(r.0, r.1)
  }

  /** The queue `upload_list` after the given rows, each checked against the
      catalog as it was before the run. */
  function UploadList(catalog: set<Row>, rows: seq<Row>): map<string, Row>
  {
    if rows == [] then map[]
    else
      var queue := UploadList(catalog, rows[..|rows| - 1]);
      var row := rows[|rows| - 1];
      if row in catalog then queue else queue[RowLabel(row) := row]
  }

  datatype Report = OpenFailed(error: string) | Loaded(count: nat) | NothingNew

  /** The line the command writes. */
  function ReportMessage(r: Report): (line: string)
    ensures r.Loaded? ==> line == "Загружено " + NatToString(r.count) + " новых записей в Ingredient."
    ensures r.NothingNew? ==> line == "Нет новых записей для Ingredient."
    ensures r.OpenFailed? ==> line == r.error
  {
    match r
    case OpenFailed(e) => e
    case Loaded(n) => "Загружено " + NatToString(n) + " новых записей в Ingredient."
    case NothingNew => "Нет новых записей для Ingredient."
  }

  /** `handle`. Returns the report, the batch handed to `bulk_create` and the
      catalog after it (rows already present are ignored as conflicts). */
  method ImportIngredients(catalog: set<Row>, file: Result<seq<Row>, string>)
    returns (report: Report, batch: map<string, Row>, newCatalog: set<Row>)
    ensures file.Err? ==> report == OpenFailed(file.error) && batch == map[] && newCatalog == catalog
    ensures file.Ok? ==> batch == UploadList(catalog, file.value) && newCatalog == catalog + batch.Values
    ensures file.Ok? ==> (report == NothingNew <==> |batch| == 0) && (report != NothingNew ==> report == Loaded(|batch|))
  {
    if file.Err? {
      return OpenFailed(file.error), map[], catalog;
    }
    var rows := file.value;
    var uploadList: map<string, Row> := map[];
    var i := 0;
    while i < |rows|
      invariant 0 <= i <= |rows|
      invariant uploadList == UploadList(catalog, rows[..i])
    {
      var row := rows[i];
      if row !in catalog {
        uploadList := uploadList[RowLabel(row) := row];
      }
      assert rows[..i + 1][..i] == rows[..i];
      i := i + 1;
    }
    assert rows[..|rows|] == rows;
    batch := uploadList;
    newCatalog := catalog + batch.Values;
    report := if |batch| > 0 then Loaded(|batch|) else NothingNew;
  }

  /** Every queued row is new, comes from the file and sits under its own
      label. */
  predicate QueuedFromFile(catalog: set<Row>, rows: seq<Row>, queue: map<string, Row>) {
    forall l :: l in queue ==> RowLabel(queue[l]) == l && queue[l] !in catalog && queue[l] in rows
  }

  /** The queue holds only new rows of the file under their labels, and
      every new row of the file has its label queued. */
  lemma {:induction false} UploadListFacts(catalog: set<Row>, rows: seq<Row>)
    ensures QueuedFromFile(catalog, rows, UploadList(catalog, rows))
    ensures forall r :: r in rows && r !in catalog ==> RowLabel(r) in UploadList(catalog, rows)
  {
    if rows != [] {
      var p := rows[..|rows| - 1];
      var row := rows[|rows| - 1];
      UploadListFacts(catalog, p);
      assert rows == p + [row];
      assert forall r :: r in rows <==> r in p || r == row;
      var before, after := UploadList(catalog, p), UploadList(catalog, rows);
      forall l | l in after ensures RowLabel(after[l]) == l && after[l] !in catalog && after[l] in rows {
        if row !in catalog && l == RowLabel(row) {
          assert after[l] == row;
          assert row in rows;
        } else {
          assert l in before && after[l] == before[l];
          assert before[l] in p;
        }
      }
    }
  }

  /** The last row wins: the row queued under a label is the last new row of
      the file with that label. */
  lemma {:induction false} LastRowWins(catalog: set<Row>, rows: seq<Row>, l: string)
    requires l in UploadList(catalog, rows)
    ensures exists k :: 0 <= k < |rows| && rows[k] == UploadList(catalog, rows)[l] &&
                        forall j :: k < j < |rows| && rows[j] !in catalog ==> RowLabel(rows[j]) != l
  {
    var n := |rows| - 1;
    var p, row := rows[..n], rows[n];
    if row !in catalog && RowLabel(row) == l {
      assert rows[n] == UploadList(catalog, rows)[l];
    } else {
      LastRowWins(catalog, p, l);
      var k :| 0 <= k < |p| && p[k] == UploadList(catalog, p)[l] &&
               forall j :: k < j < |p| && p[j] !in catalog ==> RowLabel(p[j]) != l;
      assert rows[k] == UploadList(catalog, rows)[l];
      forall j | k < j < |rows| && rows[j] !in catalog ensures RowLabel(rows[j]) != l {
        if j < n {
          assert rows[j] == p[j];
        }
      }
    }
  }

  /** Existence is checked against the catalog before the run, so a new row
      listed twice passes the check twice and is queued once. */
  lemma RepeatedRowQueuedOnce(catalog: set<Row>, r: Row)
    requires r !in catalog
    ensures UploadList(catalog, [r, r]) == map[RowLabel(r) := r]
    ensures UploadList(catalog + {r}, [r]) == map[]
  {
    assert [r, r][..1] == [r];
    assert [r][..0] == [];
    assert UploadList(catalog, [r]) == map[RowLabel(r) := r];
    assert UploadList(catalog + {r}, [r]) == UploadList(catalog + {r}, []);
  }

  /** A file with nothing new queues nothing, so the warning is written. */
  lemma {:induction false} NothingNewQueuesNothing(catalog: set<Row>, rows: seq<Row>)
    requires forall i :: 0 <= i < |rows| ==> rows[i] in catalog
    ensures UploadList(catalog, rows) == map[]
  {
    if rows != [] {
      NothingNewQueuesNothing(catalog, rows[..|rows| - 1]);
    }
  }

  /** When no name in the file contains '(', labels identify rows and every
      new row of the file reaches the catalog. */
  lemma NoParensEveryRowInserted(catalog: set<Row>, rows: seq<Row>, r: Row)
    requires forall i :: 0 <= i < |rows| ==> NoOpenParen(rows[i].0)
    requires r in rows
    ensures r in catalog + UploadList(catalog, rows).Values
  {
    if r !in catalog {
      UploadListFacts(catalog, rows);
      var queue := UploadList(catalog, rows);
      var q := queue[RowLabel(r)];
      assert q in rows && RowLabel(q) == RowLabel(r);
      var i :| 0 <= i < |rows| && rows[i] == q;
      var j :| 0 <= j < |rows| && rows[j] == r;
      LabelInjectiveWithoutParens(q.0, q.1, r.0, r.1);
    }
  }

  /** Two rows that print alike share one queue entry, so the earlier one
      never reaches the catalog: ("a (b", "c") and ("a", "b (c") both print
      "a (b (c)". */
  lemma LabelCollisionDropsRow()
    ensures var queue := UploadList({}, [("a (b", "c"), ("a", "b (c")]);
            && queue == map["a (b (c)" := ("a", "b (c")]
            && ("a (b", "c") !in queue.Values
  {
    var rows := [("a (b", "c"), ("a", "b (c")];
    assert rows[..1] == [("a (b", "c")];
    assert [("a (b", "c")][..0] == [];
    LabelNotInjective();
    assert RowLabel(("a", "b (c")) == "a (b (c)";
    assert UploadList({}, rows[..1]) == map["a (b (c)" := ("a (b", "c")];
    assert ("a (b", "c") != ("a", "b (c") by {
      assert ("a (b", "c").0 != ("a", "b (c").0;
    }
  }
}
