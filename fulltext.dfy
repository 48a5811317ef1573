/**
 * The BM25 full-text index (`FulltextIndex`). The index library is modelled by the state its
 * writer and reader expose: `committed`, the documents the reader searches and counts, and
 * `pending`, the delete-term and add-document operations the writer has staged since the last
 * commit. A commit publishes the staged operations in the order they were staged. BM25
 * scoring and the query grammar are opaque: a search is given whether the query parses and
 * the ranked (score, document) list the library would produce.
 */
module Fulltext {
  import opened Wrappers
  import opened Strings
  import opened Papers
  import opened Sequences

  /** The fields of the index schema. */
  datatype Field = IdField | TitleField | AbstractField | AuthorsField | YearField

  datatype FieldValue = Text(field: Field, text: string) | Int(field: Field, value: int)

  /** A document is the list of field values added to it, in order. */
  type Doc = seq<FieldValue>

  /** The first text value stored under `f`. */
  function FirstText(d: Doc, f: Field): Option<string>
    decreases |d|
  {
    if d == [] then None
    else if d[0].Text? && d[0].field == f then Some(d[0].text)
    else FirstText(d[1..], f)
  }

  /** The first integer value stored under `f`. */
  function FirstInt(d: Doc, f: Field): Option<int>
    decreases |d|
  {
    if d == [] then None
    else if d[0].Int? && d[0].field == f then Some(d[0].value)
    else FirstInt(d[1..], f)
  }

  lemma FirstCons(v: FieldValue, e: Doc, f: Field)
    ensures FirstText([v] + e, f) == if v.Text? && v.field == f then Some(v.text) else FirstText(e, f)
    ensures FirstInt([v] + e, f) == if v.Int? && v.field == f then Some(v.value) else FirstInt(e, f)
  {
    assert ([v] + e)[0] == v && ([v] + e)[1..] == e;
  }

  /**
   * The document `add_paper` adds for one paper, built field by field: id and title, then the
   * abstract, the ", "-joined authors and the year, each only when present.
   */
  function PaperDoc(id: string, title: string, abstractText: Option<string>,
                    authors: seq<string>, year: Option<U32>): Doc
  {
    var d0 := [Text(IdField, id), Text(TitleField, title)];
    var d1 := if abstractText.Some? then d0 + [Text(AbstractField, abstractText.value)] else d0;
    var d2 := if authors != [] then d1 + [Text(AuthorsField, Join(authors, ", "))] else d1;
    if year.Some? then d2 + [Int(YearField, year.value)] else d2
  }

  /**
   * Reading the fields back: the id and title are always there; the abstract and the year
   * only when given; the authors field only for a non-empty list, as the ", "-join; and the
   * only id value is the paper's id.
   */
  lemma PaperDocFields(id: string, title: string, abstractText: Option<string>,
                       authors: seq<string>, year: Option<U32>)
    ensures FirstText(PaperDoc(id, title, abstractText, authors, year), IdField) == Some(id)
    ensures FirstText(PaperDoc(id, title, abstractText, authors, year), TitleField) == Some(title)
    ensures FirstText(PaperDoc(id, title, abstractText, authors, year), AbstractField) == abstractText
    ensures FirstText(PaperDoc(id, title, abstractText, authors, year), AuthorsField)
            == if authors == [] then None else Some(Join(authors, ", "))
    ensures FirstInt(PaperDoc(id, title, abstractText, authors, year), YearField)
            == if year.None? then None else Some(year.value as int)
  {
    PaperDocText(id, title, abstractText, authors, year, IdField);
    PaperDocText(id, title, abstractText, authors, year, TitleField);
    PaperDocText(id, title, abstractText, authors, year, AbstractField);
    PaperDocText(id, title, abstractText, authors, year, AuthorsField);
    PaperDocInt(id, title, abstractText, authors, year, YearField);
  }

  /** The parts of the document: id and title, then each optional field. */
  lemma PaperDocParts(id: string, title: string, abstractText: Option<string>,
                      authors: seq<string>, year: Option<U32>)
    returns (abs: Doc, auth: Doc, yr: Doc)
    ensures abs == if abstractText.Some? then [Text(AbstractField, abstractText.value)] else []
    ensures auth == if authors != [] then [Text(AuthorsField, Join(authors, ", "))] else []
    ensures yr == if year.Some? then [Int(YearField, year.value)] else []
    ensures PaperDoc(id, title, abstractText, authors, year)
            == [Text(IdField, id)] + ([Text(TitleField, title)] + (abs + (auth + yr)))
  {
    abs := if abstractText.Some? then [Text(AbstractField, abstractText.value)] else [];
    auth := if authors != [] then [Text(AuthorsField, Join(authors, ", "))] else [];
    yr := if year.Some? then [Int(YearField, year.value)] else [];
  }

  /** The text fields of the document, field by field. */
  lemma PaperDocText(id: string, title: string, abstractText: Option<string>,
                     authors: seq<string>, year: Option<U32>, f: Field)
    ensures FirstText(PaperDoc(id, title, abstractText, authors, year), f)
            == if f == IdField then Some(id) else if f == TitleField then Some(title)
               else if f == AbstractField then abstractText
               else if f == AuthorsField then (if authors == [] then None else Some(Join(authors, ", ")))
               else None
  {
    var abs, auth, yr := PaperDocParts(id, title, abstractText, authors, year);
    FirstCons(Text(IdField, id), [Text(TitleField, title)] + (abs + (auth + yr)), f);
    FirstCons(Text(TitleField, title), abs + (auth + yr), f);
    FirstOptional(abs, auth + yr, f);
    FirstOptional(auth, yr, f);
    FirstOptional(yr, [], f);
  }

  /** The integer fields of the document: only the year, when given. */
  lemma PaperDocInt(id: string, title: string, abstractText: Option<string>,
                    authors: seq<string>, year: Option<U32>, f: Field)
    ensures FirstInt(PaperDoc(id, title, abstractText, authors, year), f)
            == if f == YearField && year.Some? then Some(year.value as int) else None
  {
    var abs, auth, yr := PaperDocParts(id, title, abstractText, authors, year);
    FirstCons(Text(IdField, id), [Text(TitleField, title)] + (abs + (auth + yr)), f);
    FirstCons(Text(TitleField, title), abs + (auth + yr), f);
    FirstOptional(abs, auth + yr, f);
    FirstOptional(auth, yr, f);
    FirstOptional(yr, [], f);
  }

  /** A field present at most once in front of the rest of a document. */
  lemma FirstOptional(piece: Doc, rest: Doc, f: Field)
    requires |piece| <= 1
    ensures FirstText(piece + rest, f)
            == if piece != [] && piece[0].Text? && piece[0].field == f then Some(piece[0].text) else FirstText(rest, f)
    ensures FirstInt(piece + rest, f)
            == if piece != [] && piece[0].Int? && piece[0].field == f then Some(piece[0].value) else FirstInt(rest, f)
  {
    if piece == [] {
      assert piece + rest == rest;
    } else {
      assert piece == [piece[0]];
      FirstCons(piece[0], rest, f);
    }
  }

  /** The document holds the paper's id as its only id term. */
  lemma PaperDocId(id: string, title: string, abstractText: Option<string>,
                   authors: seq<string>, year: Option<U32>)
    ensures HasId(PaperDoc(id, title, abstractText, authors, year), id)
    ensures forall id' :: HasId(PaperDoc(id, title, abstractText, authors, year), id') ==> id' == id
  {
    var d := PaperDoc(id, title, abstractText, authors, year);
    assert d[0] == Text(IdField, id);
    forall id' | HasId(d, id') ensures id' == id {
      var k :| 0 <= k < |d| && d[k] == Text(IdField, id');
      assert k == 0;
    }
  }

  /** An operation the writer stages. */
  datatype Op = DeleteTerm(id: string) | AddDocument(doc: Doc)

  /** `d` holds the term `id` in its id field (the term a delete matches). */
  predicate HasId(d: Doc, id: string) {
    Text(IdField, id) in d
  }

  function Step(docs: seq<Doc>, op: Op): seq<Doc> {
    match op
    case DeleteTerm(id) => Filter(docs, d => !HasId(d, id))
    case AddDocument(d) => docs + [d]
  }

  /** The documents visible after publishing `ops`, applied in staging order. */
  function Apply(docs: seq<Doc>, ops: seq<Op>): seq<Doc>
    decreases |ops|
  {
    if ops == [] then docs else Apply(Step(docs, ops[0]), ops[1..])
  }

  /** Publishing two batches of operations one after the other is publishing them together. */
  lemma {:induction false} ApplyAppend(docs: seq<Doc>, a: seq<Op>, b: seq<Op>)
    ensures Apply(docs, a + b) == Apply(Apply(docs, a), b)
    decreases |a|
  {
    if a != [] {
      assert (a + b)[0] == a[0] && (a + b)[1..] == a[1..] + b;
      ApplyAppend(Step(docs, a[0]), a[1..], b);
    } else {
      assert a + b == b;
    }
  }

  /** Two batches that publish the same documents still do after the same operations follow both. */
  lemma ApplyExtend(docs: seq<Doc>, ops: seq<Op>, docs': seq<Doc>, ops': seq<Op>, more: seq<Op>)
    requires Apply(docs, ops) == Apply(docs', ops')
    ensures Apply(docs, ops + more) == Apply(docs', ops' + more)
  {
    ApplyAppend(docs, ops, more);
    ApplyAppend(docs', ops', more);
  }

  /** The number of visible documents with id `id`. */
  function CountId(docs: seq<Doc>, id: string): nat {
    |Filter(docs, d => HasId(d, id))|
  }

  /**
   * Publishing the two operations `add_paper` stages leaves exactly one document with the
   * paper's id, and the documents with other ids unchanged and in order.
   */
  lemma ReplaceLeavesOne(docs: seq<Doc>, id: string, d: Doc)
    requires HasId(d, id)
    ensures CountId(Apply(docs, [DeleteTerm(id), AddDocument(d)]), id) == 1
    ensures Filter(Apply(docs, [DeleteTerm(id), AddDocument(d)]), e => !HasId(e, id))
            == Filter(docs, e => !HasId(e, id))
  {
    var kept := Filter(docs, e => !HasId(e, id));
    var ops := [DeleteTerm(id), AddDocument(d)];
    assert ops[1..] == [AddDocument(d)] && ops[1..][1..] == [];
    assert Apply(docs, ops) == Apply(kept, ops[1..]) == Apply(kept + [d], []);
    FilterAppend(kept, [d], e => HasId(e, id));
    FilterDisjoint(docs, e => !HasId(e, id), e => HasId(e, id));
    FilterAppend(kept, [d], e => !HasId(e, id));
    FilterTwice(docs, e => !HasId(e, id), e => !HasId(e, id));
  }

  /** Publishing a delete removes every document with the id and nothing else. */
  lemma DeleteRemovesAll(docs: seq<Doc>, id: string)
    ensures CountId(Apply(docs, [DeleteTerm(id)]), id) == 0
    ensures |Apply(docs, [DeleteTerm(id)])| == |docs| - CountId(docs, id)
    ensures forall e :: e in docs && !HasId(e, id) ==> e in Apply(docs, [DeleteTerm(id)])
  {
    assert Apply(docs, [DeleteTerm(id)]) == Filter(docs, e => !HasId(e, id));
    FilterDisjoint(docs, e => !HasId(e, id), e => HasId(e, id));
    FilterPartition(docs, e => HasId(e, id), e => !HasId(e, id));
    forall e | e in docs && !HasId(e, id) ensures e in Apply(docs, [DeleteTerm(id)]) {
      FilterMember(docs, e' => !HasId(e', id), e);
    }
  }

  /** The (id, score) pairs of the ranked hits `top`, or the error of the first hit naming no document. */
  function Hits(docs: seq<Doc>, top: seq<(real, nat)>): Result<seq<(string, real)>, string>
    decreases |top|
  {
    if top == [] then Ok([])
    else
      var prev := Hits(docs, top[..|top| - 1]);
      var (score, address) := top[|top| - 1];
      if prev.Err? then prev
      else if address >= |docs| then Err("Failed to retrieve document")
      else match FirstText(docs[address], IdField)
        case None => prev
        case Some(id) => Ok(prev.value + [(id, score)])
  }

  /**
   * What `search` returns for the library's ranking `top` of the visible documents:
   * `parses` is whether the query parses and `searchOk` whether the searcher then answers.
   */
  function SearchResult(docs: seq<Doc>, parses: bool, searchOk: bool, top: seq<(real, nat)>, limit: nat)
    : Result<seq<(string, real)>, string>
  {
    if !parses then Err("Failed to parse query")
    else if !searchOk then Err("Search failed")
    else Hits(docs, Truncate(top, limit))
  }

  lemma {:induction false} HitsBounded(docs: seq<Doc>, top: seq<(real, nat)>)
    requires Hits(docs, top).Ok?
    ensures |Hits(docs, top).value| <= |top|
    ensures forall k :: 0 <= k < |Hits(docs, top).value| ==>
              exists j :: 0 <= j < |docs| && FirstText(docs[j], IdField) == Some(Hits(docs, top).value[k].0)
    decreases |top|
  {
    if top != [] {
      var prefix := top[..|top| - 1];
      HitsBounded(docs, prefix);
      var (score, address) := top[|top| - 1];
      var r := Hits(docs, top).value;
      forall k | 0 <= k < |r|
        ensures exists j :: 0 <= j < |docs| && FirstText(docs[j], IdField) == Some(r[k].0)
      {
        if k >= |Hits(docs, prefix).value| {
          assert FirstText(docs[address], IdField) == Some(r[k].0);
        }
      }
    }
  }

  /**
   * A search that answers returns at most `limit` pairs, each naming a committed document; a
   * query that does not parse is an error, never an empty answer.
   */
  lemma SearchBounded(docs: seq<Doc>, parses: bool, searchOk: bool, top: seq<(real, nat)>, limit: nat)
    ensures !parses || !searchOk ==> SearchResult(docs, parses, searchOk, top, limit).Err?
    ensures SearchResult(docs, parses, searchOk, top, limit).Ok? ==>
              |SearchResult(docs, parses, searchOk, top, limit).value| <= limit
    ensures SearchResult(docs, parses, searchOk, top, limit).Ok? ==>
              forall k :: 0 <= k < |SearchResult(docs, parses, searchOk, top, limit).value| ==>
                exists j :: 0 <= j < |docs| &&
                  FirstText(docs[j], IdField) == Some(SearchResult(docs, parses, searchOk, top, limit).value[k].0)
  {
    if parses && searchOk {
      var t := Truncate(top, limit);
      if Hits(docs, t).Ok? {
        HitsBounded(docs, t);
        assert SearchResult(docs, parses, searchOk, top, limit) == Hits(docs, t);
      }
    }
  }

  /** Once a hit names no document, the rest of the ranking does not change the error. */
  lemma {:induction false} HitsErrorSticks(docs: seq<Doc>, top: seq<(real, nat)>, i: nat)
    requires i <= |top| && Hits(docs, top[..i]).Err?
    ensures Hits(docs, top) == Hits(docs, top[..i])
    decreases |top| - i
  {
    if i < |top| {
      assert top[..i + 1][..i] == top[..i];
      HitsErrorSticks(docs, top, i + 1);
    } else {
      assert top[..i] == top;
    }
  }

  /** How a commit ends: both steps succeed, the writer fails, or the reader's reload fails. */
  datatype CommitOutcome = Committed | WriteFails | ReloadFails

  class FulltextIndex {
    /** The documents the reader sees. */
    var committed: seq<Doc>
    /** The operations the writer has staged since the last commit. */
    var pending: seq<Op>

    /** `create_or_open`: an index over the documents already on disk, nothing staged. */
    constructor Open(existing: seq<Doc>)
      ensures committed == existing && pending == []
    {
      committed := existing;
      pending := [];
    }

    /**
     * `add_paper`: stages a delete of the id, builds the paper's document field by field and
     * stages its addition. When the writer refuses the document the delete stays staged.
     */
    method AddPaper(id: string, title: string, abstractText: Option<string>,
                    authors: seq<string>, year: Option<U32>, addOk: bool)
      returns (r: Result<(), string>)
      modifies this
      ensures committed == old(committed)
      ensures addOk ==> (r.Ok? &&
        pending == old(pending) + [DeleteTerm(id), AddDocument(PaperDoc(id, title, abstractText, authors, year))])
      ensures !addOk ==> r.Err? && pending == old(pending) + [DeleteTerm(id)]
    {
      pending := pending + [DeleteTerm(id)];
      var doc: Doc := [Text(IdField, id), Text(TitleField, title)];
      if abstractText.Some? {
        doc := doc + [Text(AbstractField, abstractText.value)];
      }
      if authors != [] {
        doc := doc + [Text(AuthorsField, Join(authors, ", "))];
      }
      if year.Some? {
        doc := doc + [Int(YearField, year.value)];
      }
      if !addOk {
        return Err("Failed to add document");
      }
      pending := pending + [AddDocument(doc)];
      r := Ok(());
    }

    /**
     * `commit`: the writer publishes the staged operations, then the reader is reloaded. A
     * failed write publishes nothing; a failed reload still leaves the write published, since
     * the reader picks it up on its own, but the call fails.
     */
    method Commit(outcome: CommitOutcome) returns (r: Result<(), string>)
      modifies this
      ensures r.Ok? <==> outcome.Committed?
      ensures !outcome.WriteFails? ==> committed == Apply(old(committed), old(pending)) && pending == []
      ensures outcome.WriteFails? ==> committed == old(committed) && pending == old(pending)
    {
      if outcome.WriteFails? {
        return Err("Failed to commit");
      }
      committed := Apply(committed, pending);
      pending := [];
      if outcome.ReloadFails? {
        return Err("Failed to reload reader");
      }
      r := Ok(());
    }

    /** `delete`: stages a delete of the id; staging never fails. */
    method Delete(id: string) returns (r: Result<(), string>)
      modifies this
      ensures r.Ok? && committed == old(committed) && pending == old(pending) + [DeleteTerm(id)]
    {
      pending := pending + [DeleteTerm(id)];
      r := Ok(());
    }

    /** `count`: the number of committed documents; staged operations do not show. */
    function Count(): nat
      reads this
    {
      |committed|
    }

    /**
     * `search`: the (id, score) pairs of the top `limit` hits of the library's ranking `top`
     * over the committed documents, skipping any document without a stored id.
     */
    method Search(query: string, limit: nat, parses: bool, searchOk: bool, top: seq<(real, nat)>)
      returns (r: Result<seq<(string, real)>, string>)
      ensures r == SearchResult(committed, parses, searchOk, top, limit)
    {
      if !parses {
        return Err("Failed to parse query");
      }
      if !searchOk {
        return Err("Search failed");
      }
      var topDocs := Truncate(top, limit);
      var results: seq<(string, real)> := [];
      var i := 0;
      while i < |topDocs|
        invariant 0 <= i <= |topDocs|
        invariant Hits(committed, topDocs[..i]) == Ok(results)
      {
        var (score, address) := topDocs[i];
        assert topDocs[..i + 1][..i] == topDocs[..i];
        if address >= |committed| {
          HitsErrorSticks(committed, topDocs, i + 1);
          return Err("Failed to retrieve document");
        }
        var doc := committed[address];
        match FirstText(doc, IdField) {
          case Some(id) => results := results + [(id, score)];
          case None =>
        }
        i := i + 1;
      }
      assert topDocs[..i] == topDocs;
      r := Ok(results);
    }
  }

  /** Two adds of different ids then a delete of the first, as staged and published. */
  lemma AddAddDelete(a: string, da: Doc, b: string, db: Doc)
    requires HasId(da, a) && HasId(db, b) && !HasId(da, b) && !HasId(db, a)
    ensures Apply([], [DeleteTerm(a), AddDocument(da), DeleteTerm(b), AddDocument(db)]) == [da, db]
    ensures Apply([da, db], [DeleteTerm(a)]) == [db]
  {
    var ops := [DeleteTerm(a), AddDocument(da), DeleteTerm(b), AddDocument(db)];
    assert [da][1..] == [] && [da, db][1..] == [db] && [db][1..] == [];
    assert ops[1..][1..] == ops[2..] && ops[2..][1..] == ops[3..] && ops[3..][1..] == [];
    calc {
      Apply([], ops);
      Apply(Step([], DeleteTerm(a)), ops[1..]);
      Apply([da], ops[2..]);
      Apply(Filter([da], d => !HasId(d, b)), ops[3..]);
      Apply([da, db], []);
    }
    assert Apply([da, db], [DeleteTerm(a)]) == Filter([da, db], d => !HasId(d, a));
  }

  /**
   * The index's own round trip, for any two papers with different ids: both added and
   * committed count 2; deleting one and committing again counts 1.
   */
  method RoundTripScenario(a: string, ta: string, sa: Option<string>, aa: seq<string>, ya: Option<U32>,
                           b: string, tb: string, sb: Option<string>, ab: seq<string>, yb: Option<U32>)
    returns (afterAdds: nat, afterDelete: nat)
    requires a != b
    ensures afterAdds == 2 && afterDelete == 1
  {
    PaperDocId(a, ta, sa, aa, ya);
    PaperDocId(b, tb, sb, ab, yb);
    AddAddDelete(a, PaperDoc(a, ta, sa, aa, ya), b, PaperDoc(b, tb, sb, ab, yb));
    var idx := new FulltextIndex.Open([]);
    var _ := idx.AddPaper(a, ta, sa, aa, ya, true);
    var _ := idx.AddPaper(b, tb, sb, ab, yb, true);
    var _ := idx.Commit(Committed);
    afterAdds := idx.Count();
    var _ := idx.Delete(a);
    var _ := idx.Commit(Committed);
    afterDelete := idx.Count();
  }
}
