/**
 * The vector store (`VectorStore`): one table of paper rows with their embeddings. The table
 * is a sequence of rows in insertion order; the storage engine's failures are the `ok`
 * parameters, and its nearest-neighbour order is given to a search as a list of
 * (row, distance) pairs. Rows are selected and deleted through the SQL-like filter
 * `id = '<escaped id>'`, which is modelled together with its reading.
 */
module VectorDb {
  import opened Wrappers
  import opened Strings
  import opened Papers
  import opened Sequences
  import Specter

  /** A 32-bit signed integer, the storage type of `year` and `citation_count`. */
  type I32 = x: int | -0x8000_0000 <= x < 0x8000_0000

  /** `v as i32`: the same 32 bits read as two's complement. */
  function ToI32(v: U32): (r: I32)
    ensures (r - v) % U32_LIMIT == 0
  {
    if v < 0x8000_0000 then v else v - U32_LIMIT
  }

  /** `v as u32`: the same 32 bits read as unsigned. */
  function ToU32(v: I32): (r: U32)
    ensures (r - v) % U32_LIMIT == 0
  {
    if v >= 0 then v else v + U32_LIMIT
  }

  /** Storing a `u32` as `i32` and reading it back as `u32` gives it back, and the other way round. */
  lemma I32RoundTrip(v: U32, w: I32)
    ensures ToU32(ToI32(v)) == v
    ensures ToI32(ToU32(w)) == w
  {
  }

  /** The `authors_json` column: the JSON text of a string array, or text that is not one. */
  datatype AuthorsJson = JsonArray(items: seq<string>) | NotJson(text: string)

  /** A row of the papers table. `id` and `title` are the two non-nullable columns. */
  datatype Row = Row(
    id: string,
    title: string,
    abstractText: Option<string>,
    authorsJson: Option<AuthorsJson>,
    year: Option<I32>,
    source: Option<string>,
    doi: Option<string>,
    arxivId: Option<string>,
    url: Option<string>,
    pdfUrl: Option<string>,
    citationCount: Option<I32>,
    embedding: seq<real>)

  function MapI32(v: Option<U32>): Option<I32> {
    if v.Some? then Some(ToI32(v.value)) else None
  }

  function MapU32(v: Option<I32>): Option<U32> {
    if v.Some? then Some(ToU32(v.value)) else None
  }

  /** The row `add_paper` writes: every column set from the paper, the authors as a JSON array. */
  function MakeRow(paper: PaperResult, embedding: seq<real>): Row {
    Row(paper.id, paper.title, paper.abstractText, Some(JsonArray(paper.authors)),
        MapI32(paper.year), Some(paper.source), paper.doi, paper.arxivId, Some(paper.url),
        paper.pdfUrl, MapI32(paper.citationCount), embedding)
  }

  /** The authors read back from the column; a missing or malformed value reads as no authors. */
  function DecodeAuthors(column: Option<AuthorsJson>): seq<string> {
    match column
    case Some(JsonArray(items)) => items
    case _ => []
  }

  /**
   * `batch_row_to_paper`: the paper a row describes. Missing `source` and `url` read as "",
   * missing or malformed authors as an empty list, and the integers are read back as `u32`.
   */
  function BatchRowToPaper(row: Row): (p: PaperResult)
    ensures row.source.None? ==> p.source == ""
    ensures row.url.None? ==> p.url == ""
    ensures row.authorsJson.None? || row.authorsJson.value.NotJson? ==> p.authors == []
    ensures p.id == row.id && p.title == row.title
  {
    PaperResult(row.id, row.title, DecodeAuthors(row.authorsJson), row.abstractText,
                MapU32(row.year), row.source.UnwrapOr(""), row.doi, row.arxivId,
                row.url.UnwrapOr(""), row.pdfUrl, MapU32(row.citationCount))
  }

  /** A paper written and read back is the same paper, whatever its year and citation count. */
  lemma RowRoundTrip(paper: PaperResult, embedding: seq<real>)
    ensures BatchRowToPaper(MakeRow(paper, embedding)) == paper
  {
    I32RoundTrip(if paper.year.Some? then paper.year.value else 0, 0);
    I32RoundTrip(if paper.citationCount.Some? then paper.citationCount.value else 0, 0);
  }

  // ---------------------------------------------------------------- the id filter

  /** `id.replace('\'', "''")`: every quote doubled. */
  function EscapeQuotes(id: string): string {
    ReplaceChar(id, '\'', "''")
  }

  /** The filter `id = '<escaped id>'` used to select and delete rows. */
  function FilterLiteral(id: string): string {
    "id = '" + EscapeQuotes(id) + "'"
  }

  /**
   * Reads a quoted string body up to its closing quote, a doubled quote standing for one
   * quote; gives the value and what follows the closing quote.
   */
  function ReadQuoted(s: string): Option<(string, string)>
    decreases |s|
  {
    if s == [] then None
    else if s[0] == '\'' then
      if |s| > 1 && s[1] == '\'' then
        match ReadQuoted(s[2..])
        case None => None
        case Some(vr) => Some(("'" + vr.0, vr.1))
      else Some(([], s[1..]))
    else
      match ReadQuoted(s[1..])
      case None => None
      case Some(vr) => Some(([s[0]] + vr.0, vr.1))
  }

  /** The id a filter of the form `id = '...'` selects, when the literal is closed at its end. */
  function FilterValue(filter: string): Option<string> {
    if !IsPrefix("id = '", filter) then None
    else match ReadQuoted(filter[6..])
      case Some(vr) => if vr.1 == [] then Some(vr.0) else None
      case None => None
  }

  lemma {:induction false} ReadEscaped(id: string, rest: string)
    requires rest == [] || rest[0] != '\''
    ensures ReadQuoted(EscapeQuotes(id) + "'" + rest) == Some((id, rest))
    decreases |id|
  {
    if id == [] {
      assert EscapeQuotes(id) + "'" + rest == ['\''] + rest;
    } else {
      var tail := EscapeQuotes(id[1..]) + "'" + rest;
      ReadEscaped(id[1..], rest);
      EscapeCons(id, rest);
      ReadQuotedCons(id[0], tail);
      assert id == [id[0]] + id[1..];
    }
  }

  /** Escaping a non-empty id: its first character, doubled when a quote, then the rest. */
  lemma EscapeCons(id: string, rest: string)
    requires id != []
    ensures EscapeQuotes(id) + "'" + rest
            == (if id[0] == '\'' then "''" else [id[0]]) + (EscapeQuotes(id[1..]) + "'" + rest)
  {
  }

  /** Reading past one escaped character of the body. */
  lemma ReadQuotedCons(c: char, tail: string)
    ensures ReadQuoted((if c == '\'' then "''" else [c]) + tail)
            == match ReadQuoted(tail) case None => None case Some(vr) => Some(([c] + vr.0, vr.1))
  {
    var s := (if c == '\'' then "''" else [c]) + tail;
    if c == '\'' {
      assert s[2..] == tail;
    } else {
      assert s[1..] == tail;
    }
  }

  /**
   * The filter selects exactly the given id: the escaping keeps every quote of the id inside
   * the literal, so reading the literal back recovers the id.
   */
  lemma FilterRoundTrip(id: string)
    ensures FilterValue(FilterLiteral(id)) == Some(id)
  {
    var f := FilterLiteral(id);
    assert f == "id = '" + (EscapeQuotes(id) + "'" + []);
    assert f[6..] == EscapeQuotes(id) + "'" + [];
    ReadEscaped(id, []);
  }

  /** The rows a filter selects. */
  predicate Selects(filter: string, row: Row) {
    FilterValue(filter) == Some(row.id)
  }

  /** The first row satisfying `p`, in table order. */
  function FirstWhere(rows: seq<Row>, p: Row -> bool): (r: Option<Row>)
    ensures r.Some? ==> r.value in rows && p(r.value)
    ensures r.None? <==> forall k :: 0 <= k < |rows| ==> !p(rows[k])
    decreases |rows|
  {
    if rows == [] then None
    else if p(rows[0]) then Some(rows[0])
    else FirstWhere(rows[1..], p)
  }

  lemma {:induction false} FirstWhereSame(rows: seq<Row>, p: Row -> bool, q: Row -> bool)
    requires forall r :: p(r) == q(r)
    ensures FirstWhere(rows, p) == FirstWhere(rows, q)
    decreases |rows|
  {
    if rows != [] {
      FirstWhereSame(rows[1..], p, q);
    }
  }

  lemma {:induction false} FirstWhereAppend(a: seq<Row>, b: seq<Row>, p: Row -> bool)
    ensures FirstWhere(a + b, p) == if FirstWhere(a, p).Some? then FirstWhere(a, p) else FirstWhere(b, p)
    decreases |a|
  {
    if a == [] {
      assert a + b == b;
    } else {
      assert (a + b)[0] == a[0] && (a + b)[1..] == a[1..] + b;
      FirstWhereAppend(a[1..], b, p);
    }
  }

  /** The paper stored under `id`: the first row with that id, read back. */
  function Lookup(rows: seq<Row>, id: string): (r: Option<PaperResult>)
    ensures r.None? <==> forall k :: 0 <= k < |rows| ==> rows[k].id != id
    ensures r.Some? ==> r.value.id == id
  {
    match FirstWhere(rows, (row: Row) => row.id == id)
    case None => None
    case Some(row) => Some(BatchRowToPaper(row))
  }

  /** A lookup in two tables laid end to end finds the first table's row before the second's. */
  lemma LookupAppend(a: seq<Row>, b: seq<Row>, id: string)
    ensures Lookup(a + b, id) == if Lookup(a, id).Some? then Lookup(a, id) else Lookup(b, id)
  {
    FirstWhereAppend(a, b, (row: Row) => row.id == id);
  }

  class VectorStore {
    /** The papers table, in insertion order. */
    var rows: seq<Row>

    /** `create_or_open`: the table already on disk, or a new empty one. */
    constructor Open(existing: seq<Row>)
      ensures rows == existing
    {
      rows := existing;
    }

    /**
     * `add_paper`: appends one row for the paper and its 768-value embedding. An embedding of
     * any other length does not fit the fixed-size vector column and is refused.
     */
    method AddPaper(paper: PaperResult, embedding: seq<real>, ok: bool) returns (r: Result<(), string>)
      modifies this
      ensures ok && |embedding| == Specter.EMBEDDING_DIMENSION ==>
        r.Ok? && rows == old(rows) + [MakeRow(paper, embedding)]
      ensures !ok || |embedding| != Specter.EMBEDDING_DIMENSION ==> r.Err? && rows == old(rows)
    {
      if |embedding| != Specter.EMBEDDING_DIMENSION {
        return Err("Failed to create RecordBatch");
      }
      if !ok {
        return Err("Failed to add paper to vector store");
      }
      rows := rows + [MakeRow(paper, embedding)];
      r := Ok(());
    }

    /** `delete`: removes every row the id filter selects, that is every row with that id. */
    method Delete(id: string, ok: bool) returns (r: Result<(), string>)
      modifies this
      ensures ok ==> r.Ok? && rows == Filter(old(rows), (row: Row) => row.id != id)
      ensures !ok ==> r.Err? && rows == old(rows)
    {
      if !ok {
        return Err("Failed to delete");
      }
      var filter := FilterLiteral(id);
      FilterRoundTrip(id);
      FilterSame(rows, row => !Selects(filter, row), (row: Row) => row.id != id);
      rows := Filter(rows, row => !Selects(filter, row));
      r := Ok(());
    }

    /** `count`: the number of rows. */
    method Count(ok: bool) returns (r: Result<nat, string>)
      ensures ok ==> r == Ok(|rows|)
      ensures !ok ==> r.Err?
    {
      if !ok {
        return Err("Failed to count rows");
      }
      r := Ok(|rows|);
    }

    /** `get_paper`: the first row the id filter selects, read back, or None. */
    method GetPaper(id: string, ok: bool) returns (r: Result<Option<PaperResult>, string>)
      ensures ok ==> r == Ok(Lookup(rows, id))
      ensures !ok ==> r.Err?
    {
      if !ok {
        return Err("Failed to query by ID");
      }
      var filter := FilterLiteral(id);
      FilterRoundTrip(id);
      FirstWhereSame(rows, row => Selects(filter, row), (row: Row) => row.id == id);
      match FirstWhere(rows, row => Selects(filter, row)) {
        case None => r := Ok(None);
        case Some(row) => r := Ok(Some(BatchRowToPaper(row)));
      }
    }

    /**
     * `search_similar`: the (id, distance) pairs of the first `limit` rows of the storage
     * engine's nearest-neighbour order `nearest`.
     */
    method SearchSimilar(embedding: seq<real>, limit: nat, ok: bool, nearest: seq<(nat, real)>)
      returns (r: Result<seq<(string, real)>, string>)
      requires forall k :: 0 <= k < |nearest| ==> nearest[k].0 < |rows|
      ensures !ok ==> r.Err?
      ensures ok ==> r.Ok? && |r.value| <= limit && |r.value| == |Truncate(nearest, limit)|
      ensures ok ==> forall k :: 0 <= k < |r.value| ==> r.value[k] == (rows[nearest[k].0].id, nearest[k].1)
    {
      if !ok {
        return Err("Failed to execute vector search");
      }
      var batch := Truncate(nearest, limit);
      var results: seq<(string, real)> := [];
      var i := 0;
      while i < |batch|
        invariant 0 <= i <= |batch|
        invariant |results| == i
        invariant forall k :: 0 <= k < i ==> results[k] == (rows[nearest[k].0].id, nearest[k].1)
      {
        var (row, distance) := batch[i];
        results := results + [(rows[row].id, distance)];
        i := i + 1;
      }
      r := Ok(results);
    }
  }

  /** After a delete, no paper is found under the deleted id, and papers under other ids still are. */
  lemma LookupAfterDelete(rows: seq<Row>, id: string, other: string)
    requires other != id
    ensures Lookup(Filter(rows, (row: Row) => row.id != id), id).None?
    ensures Lookup(Filter(rows, (row: Row) => row.id != id), other).Some? <==> Lookup(rows, other).Some?
  {
    var kept := Filter(rows, (row: Row) => row.id != id);
    forall k | 0 <= k < |kept| ensures kept[k].id != id {
      FilterMember(rows, (row: Row) => row.id != id, kept[k]);
    }
    if Lookup(rows, other).Some? {
      var k :| 0 <= k < |rows| && rows[k].id == other;
      FilterMember(rows, (row: Row) => row.id != id, rows[k]);
      var j :| 0 <= j < |kept| && kept[j] == rows[k];
    }
    if Lookup(kept, other).Some? {
      var j :| 0 <= j < |kept| && kept[j].id == other;
      FilterMember(rows, (row: Row) => row.id != id, kept[j]);
    }
  }

  function SamplePaper(id: string, title: string): PaperResult {
    PaperResult(id, title, ["Test Author"], Some("Test abstract"), Some(2024), "test", None, None,
                "https://example.com", None, Some(10))
  }

  /**
   * The store's own round trip: two papers added count 2; the first is found with its title
   * and year; after deleting it the count is 1 and it is no longer found.
   */
  method RoundTripScenario(hash: string -> bv64)
    returns (count: Result<nat, string>, got: Result<Option<PaperResult>, string>,
             countAfter: Result<nat, string>, gotAfter: Result<Option<PaperResult>, string>)
    ensures count == Ok(2) && countAfter == Ok(1)
    ensures got.Ok? && got.value.Some?
    ensures got.value.value.title == "Holographic Entanglement in AdS/CFT"
    ensures got.value.value.year == Some(2024)
    ensures gotAfter == Ok(None)
  {
    var store := new VectorStore.Open([]);
    var paper1 := SamplePaper("test:001", "Holographic Entanglement in AdS/CFT");
    var emb1 := Specter.MockEmbedding(paper1.title, hash);
    var _ := store.AddPaper(paper1, emb1, true);
    var paper2 := SamplePaper("test:002", "Quantum Error Correction Codes");
    var emb2 := Specter.MockEmbedding(paper2.title, hash);
    var _ := store.AddPaper(paper2, emb2, true);
    count := store.Count(true);
    got := store.GetPaper("test:001", true);
    assert store.rows[0] == MakeRow(paper1, emb1);
    RowRoundTrip(paper1, emb1);
    var _ := store.Delete("test:001", true);
    assert "test:002"[7] != "test:001"[7];
    assert store.rows == [MakeRow(paper2, emb2)] by {
      var old2 := [MakeRow(paper1, emb1), MakeRow(paper2, emb2)];
      assert old2[1..] == [MakeRow(paper2, emb2)] && old2[1..][1..] == [];
    }
    countAfter := store.Count(true);
    gotAfter := store.GetPaper("test:001", true);
  }
}
