/**
 * The arXiv adapter: the query escaping and the Atom feed reader. The XML tokeniser is
 * outside the model; its output is a sequence of events, and the reader is the event loop
 * over them, one paper per completed `entry` element (section 4.1.2 of RFC 4287).
 */
module Arxiv {
  import opened Wrappers
  import opened Strings
  import opened Papers

  const BASE_URL: string := "https://export.arxiv.org/api/query"

  // ---------------------------------------------------------------- query escaping

  /** `urlencoded`: a space becomes '+', ':' becomes "%3A" and '/' becomes "%2F". */
  function UrlEncoded(s: string): string {
    ReplaceChar(ReplaceChar(ReplaceChar(s, ' ', "+"), ':', "%3A"), '/', "%2F")
  }

  /**
   * The escaped text has no space, colon or slash, keeps every other character, and text
   * without those three characters is left as it is.
   */
  lemma UrlEncodedSafe(s: string)
    ensures ' ' !in UrlEncoded(s) && ':' !in UrlEncoded(s) && '/' !in UrlEncoded(s)
    ensures forall c :: c in s && c != ' ' && c != ':' && c != '/' ==> c in UrlEncoded(s)
    ensures ' ' !in s && ':' !in s && '/' !in s ==> UrlEncoded(s) == s
  {
    var a := ReplaceChar(s, ' ', "+");
    var b := ReplaceChar(a, ':', "%3A");
    assert ' ' !in a;
    assert ' ' !in b && ':' !in b;
  }

  /** '+' is not escaped, so a literal plus and a space encode alike. */
  lemma UrlEncodedPlusCollides()
    ensures UrlEncoded("a b") == UrlEncoded("a+b") == "a+b"
  {
    assert ReplaceChar("a b", ' ', "+") == "a+b";
    assert ReplaceChar("a+b", ' ', "+") == "a+b";
  }

  /** `get_paper`'s request: the id with any "arxiv:" prefix removed goes in the id list. */
  function GetPaperUrl(id: string): string {
    BASE_URL + "?id_list=" + StripPrefix(id, "arxiv:")
  }

  lemma GetPaperUrlStrips(x: string)
    ensures GetPaperUrl("arxiv:" + x) == BASE_URL + "?id_list=" + x
  {
    StripPrefixOfPrefixed("arxiv:", x);
  }

  /** `get_paper`'s answer: the first paper of the feed, if any. */
  function GetPaperResult(feed: Result<seq<PaperResult>, SourceError>): (r: Result<Option<PaperResult>, SourceError>)
    ensures feed.Err? <==> r.Err?
    ensures feed.Ok? ==> (r.value.None? <==> feed.value == [])
    ensures feed.Ok? && feed.value != [] ==> r.value.value == feed.value[0]
  {
    match feed
    case Err(e) => Err(e)
    case Ok(papers) => Ok(if papers == [] then None else Some(papers[0]))
  }

  /** `get_citations` and `get_references`: arXiv has no citation data. */
  function Related(id: string): (r: seq<PaperResult>)
    ensures r == []
  {
    []
  }

  // ---------------------------------------------------------------- events

  /** What the tokeniser reports; `Text` carries the unescaped text. */
  datatype XmlEvent =
    | Start(name: string, attrs: seq<(string, string)>)
    | Empty(name: string, attrs: seq<(string, string)>)
    | Text(text: string)
    | End(name: string)
    | Eof
    | Malformed(message: string)
    | Other

  /** A link's `href` and `title` attributes ("" when absent); a later duplicate wins. */
  function LinkAttrs(attrs: seq<(string, string)>): (string, string)
    decreases |attrs|
  {
    if attrs == [] then ("", "")
    else
      var prev := LinkAttrs(attrs[..|attrs| - 1]);
      var (key, val) := attrs[|attrs| - 1];
      if key == "href" then (val, prev.1) else if key == "title" then (prev.0, val) else prev
  }

  /** The attribute loop of a `link` element. */
  method ReadLinkAttrs(attrs: seq<(string, string)>) returns (href: string, titleAttr: string)
    ensures (href, titleAttr) == LinkAttrs(attrs)
  {
    href, titleAttr := "", "";
    var i := 0;
    while i < |attrs|
      invariant 0 <= i <= |attrs|
      invariant (href, titleAttr) == LinkAttrs(attrs[..i])
    {
      var (key, val) := attrs[i];
      if key == "href" {
        href := val;
      } else if key == "title" {
        titleAttr := val;
      }
      assert attrs[..i + 1][..i] == attrs[..i];
      i := i + 1;
    }
    assert attrs[..i] == attrs;
  }

  /** The most recent attribute of each name is the one read. */
  lemma LinkAttrsLast(attrs: seq<(string, string)>, val: string)
    ensures LinkAttrs(attrs + [("href", val)]).0 == val
    ensures LinkAttrs(attrs + [("title", val)]).1 == val
    ensures LinkAttrs(attrs + [("title", val)]).0 == LinkAttrs(attrs).0
  {
    assert (attrs + [("href", val)])[..|attrs|] == attrs;
    assert (attrs + [("title", val)])[..|attrs|] == attrs;
  }

  // ---------------------------------------------------------------- the reader's state

  /** The loop's variables. */
  datatype Feed = Feed(
    inEntry: bool, currentTag: string, title: string, summary: string, idText: string,
    authors: seq<string>, published: string, linkPdf: string, linkAbs: string,
    authorName: string, inAuthor: bool, doi: Option<string>, papers: seq<PaperResult>)

  const Initial: Feed := Feed(false, "", "", "", "", [], "", "", "", "", false, None, [])

  /** A `link` element: a "pdf" title sets the PDF link, else the first href containing "abs" is kept. */
  function SeeLink(f: Feed, attrs: seq<(string, string)>): Feed {
    var (href, titleAttr) := LinkAttrs(attrs);
    if titleAttr == "pdf" then f.(linkPdf := href)
    else if f.linkAbs == [] && Contains(href, "abs") then f.(linkAbs := href)
    else f
  }

  function OnStart(f: Feed, tag: string, attrs: seq<(string, string)>): Feed {
    if tag == "entry" then
      f.(inEntry := true, title := "", summary := "", idText := "", authors := [], published := "",
         linkPdf := "", linkAbs := "", doi := None)
    else if f.inEntry then
      var g := f.(currentTag := tag);
      var h := if tag == "author" then g.(inAuthor := true, authorName := "") else g;
      if tag == "link" then SeeLink(h, attrs) else h
    else f
  }

  /** Text inside an entry goes to the field of the open element; only the first `id` text counts. */
  function OnText(f: Feed, text: string): Feed {
    if !f.inEntry then f
    else if f.currentTag == "title" then f.(title := f.title + text)
    else if f.currentTag == "summary" then f.(summary := f.summary + text)
    else if f.currentTag == "id" && f.idText == [] then f.(idText := text)
    else if f.currentTag == "published" then f.(published := f.published + text)
    else if f.currentTag == "name" && f.inAuthor then f.(authorName := f.authorName + text)
    else if Contains(f.currentTag, "doi") then f.(doi := Some(text))
    else f
  }

  /** The year: the first four characters of `published` read as a number. */
  function PublishedYear(published: string): Option<U32> {
    if |published| >= 4 then ParseU32(published[..4]) else None
  }

  /** The trimmed text with each line break turned into a space. */
  function Clean(s: string): (r: string)
    ensures '\n' !in r
    ensures r == [] <==> Trim(s) == []
  {
    ReplaceChar(Trim(s), '\n', " ")
  }

  /** The paper a completed entry yields, if its id segment and trimmed title are non-empty. */
  function EntryPaper(f: Feed): (r: Option<PaperResult>)
    ensures r.Some? <==> AfterLast(f.idText, "/") != [] && Trim(f.title) != []
    ensures r.Some? ==> var seg := AfterLast(f.idText, "/");
      && r.value.id == "arxiv:" + seg && r.value.arxivId == Some(seg)
      && r.value.source == "arxiv" && r.value.citationCount.None?
      && r.value.year == PublishedYear(f.published)
      && r.value.authors == f.authors && r.value.doi == f.doi
      && (r.value.abstractText.None? <==> Trim(f.summary) == [])
      && (r.value.pdfUrl.Some? <==> f.linkPdf != [])
      && r.value.url == (if f.linkAbs == [] then f.idText else f.linkAbs)
  {
    var seg := AfterLast(f.idText, "/");
    if seg != [] && Trim(f.title) != [] then
      Some(PaperResult(
        "arxiv:" + seg, Clean(f.title), f.authors,
        if Trim(f.summary) == [] then None else Some(Clean(f.summary)),
        PublishedYear(f.published), "arxiv", f.doi, Some(seg),
        if f.linkAbs == [] then f.idText else f.linkAbs,
        if f.linkPdf == [] then None else Some(f.linkPdf),
        None))
    else None
  }

  function OnEnd(f: Feed, tag: string): Feed {
    var g :=
      if tag == "entry" && f.inEntry then CloseEntry(f)
      else if tag == "author" && f.inAuthor then
        var h := f.(inAuthor := false);
        if Trim(f.authorName) != [] then h.(authors := h.authors + [Trim(f.authorName)]) else h
      else f;
    if tag == f.currentTag then g.(currentTag := "") else g
  }

  /** One event other than the end of input or an error. */
  function Step(f: Feed, e: XmlEvent): Feed {
    match e
    case Start(name, attrs) => OnStart(f, name, attrs)
    case Empty(name, attrs) => if f.inEntry && name == "link" then SeeLink(f, attrs) else f
    case Text(text) => OnText(f, text)
    case End(name) => OnEnd(f, name)
    case _ => f
  }

  /** The loop from state `f`: it stops at the end of input, and an error event fails the parse. */
  function Run(f: Feed, events: seq<XmlEvent>): Result<seq<PaperResult>, SourceError>
    decreases |events|
  {
    if events == [] then Ok(f.papers)
    else match events[0]
      case Eof => Ok(f.papers)
      case Malformed(m) => Err(Parse("XML parse error: " + m))
      case _ => Run(Step(f, events[0]), events[1..])
  }

  /** `parse_atom_feed` */
  function ParseFeed(events: seq<XmlEvent>): Result<seq<PaperResult>, SourceError> {
    Run(Initial, events)
  }

  // ---------------------------------------------------------------- the loop

  /** The state after an `entry` element closes. */
  function CloseEntry(f: Feed): Feed {
    var h := f.(inEntry := false);
    match EntryPaper(f) case Some(p) => h.(papers := h.papers + [p]) case None => h
  }

  /** The end of an `entry` element, as the loop handles it: the paper is built and kept when complete. */
  method HandleEntryEnd(st: Feed) returns (next: Feed)
    ensures next == CloseEntry(st)
  {
    next := st.(inEntry := false);
    var seg := AfterLast(st.idText, "/");
    if seg != [] && Trim(st.title) != [] {
      var paper := PaperResult(
        "arxiv:" + seg, Clean(st.title), st.authors,
        if Trim(st.summary) == [] then None else Some(Clean(st.summary)),
        PublishedYear(st.published),
        "arxiv", st.doi, Some(seg),
        if st.linkAbs == [] then st.idText else st.linkAbs,
        if st.linkPdf == [] then None else Some(st.linkPdf),
        None);
      next := next.(papers := next.papers + [paper]);
    }
  }

  /** The end of an element, as the loop handles it. */
  method HandleEnd(st: Feed, tag: string) returns (next: Feed)
    ensures next == OnEnd(st, tag)
  {
    next := st;
    if tag == "entry" && st.inEntry {
      next := HandleEntryEnd(st);
    } else if tag == "author" && st.inAuthor {
      next := next.(inAuthor := false);
      var name := Trim(st.authorName);
      if name != [] {
        next := next.(authors := next.authors + [name]);
      }
    }
    if tag == st.currentTag {
      next := next.(currentTag := "");
    }
  }

  /** A `link` element's attributes, as the loop handles them. */
  method HandleLink(st: Feed, attrs: seq<(string, string)>) returns (next: Feed)
    ensures next == SeeLink(st, attrs)
  {
    next := st;
    var href, titleAttr := ReadLinkAttrs(attrs);
    if titleAttr == "pdf" {
      next := next.(linkPdf := href);
    } else if st.linkAbs == [] && Contains(href, "abs") {
      next := next.(linkAbs := href);
    }
  }

  /**
   * `parse_atom_feed` as written: one pass over the events; `st` holds the reader's
   * variables (`in_entry`, `current_tag`, `title`, ..., `papers`).
   */
  method ParseAtomFeed(events: seq<XmlEvent>) returns (r: Result<seq<PaperResult>, SourceError>)
    ensures r == ParseFeed(events)
  {
    var st := Initial;
    var i := 0;
    while i < |events|
      invariant 0 <= i <= |events|
      invariant Run(st, events[i..]) == ParseFeed(events)
    {
      var e := events[i];
      assert events[i..][0] == e && events[i..][1..] == events[i + 1..];
      match e {
        case Eof =>
          return Ok(st.papers);
        case Malformed(m) =>
          return Err(Parse("XML parse error: " + m));
        case Start(tag, attrs) =>
          if tag == "entry" {
            st := st.(inEntry := true, title := "", summary := "", idText := "", authors := [],
                      published := "", linkPdf := "", linkAbs := "", doi := None);
          } else if st.inEntry {
            st := st.(currentTag := tag);
            if tag == "author" {
              st := st.(inAuthor := true, authorName := "");
            }
            if tag == "link" {
              st := HandleLink(st, attrs);
            }
          }
        case Empty(tag, attrs) =>
          if st.inEntry && tag == "link" {
            st := HandleLink(st, attrs);
          }
        case Text(text) =>
          if st.inEntry {
            if st.currentTag == "title" {
              st := st.(title := st.title + text);
            } else if st.currentTag == "summary" {
              st := st.(summary := st.summary + text);
            } else if st.currentTag == "id" && st.idText == [] {
              st := st.(idText := text);
            } else if st.currentTag == "published" {
              st := st.(published := st.published + text);
            } else if st.currentTag == "name" && st.inAuthor {
              st := st.(authorName := st.authorName + text);
            } else if Contains(st.currentTag, "doi") {
              st := st.(doi := Some(text));
            }
          }
        case End(tag) =>
          st := HandleEnd(st, tag);
        case Other =>
      }
      i := i + 1;
    }
    r := Ok(st.papers);
  }

  // ---------------------------------------------------------------- properties

  /** An author name as kept: non-empty and already trimmed. */
  predicate TrimmedName(a: string) {
    a != [] && Trim(a) == a
  }

  /**
   * What every paper the reader emits looks like: an "arxiv:" id whose remainder is a
   * non-empty segment without '/', repeated as the arXiv id; a non-empty one-line title; an
   * abstract that is absent or non-empty and one-line; trimmed non-empty author names; a
   * non-empty PDF link when present; source "arxiv" and no citation count.
   */
  ghost predicate Emitted(p: PaperResult) {
    && |p.id| > 6 && p.id[..6] == "arxiv:"
    && !Contains(p.id[6..], "/") && p.arxivId == Some(p.id[6..])
    && p.title != [] && '\n' !in p.title
    && (p.abstractText.Some? ==> p.abstractText.value != [] && '\n' !in p.abstractText.value)
    && (forall a :: a in p.authors ==> TrimmedName(a))
    && (p.pdfUrl.Some? ==> p.pdfUrl.value != [])
    && p.source == "arxiv" && p.citationCount.None?
  }

  ghost predicate Good(f: Feed) {
    && (forall a :: a in f.authors ==> TrimmedName(a))
    && (forall p :: p in f.papers ==> Emitted(p))
  }

  lemma EntryPaperEmitted(f: Feed)
    requires forall a :: a in f.authors ==> TrimmedName(a)
    requires EntryPaper(f).Some?
    ensures Emitted(EntryPaper(f).value)
  {
    var seg := AfterLast(f.idText, "/");
    var p := EntryPaper(f).value;
    assert p.id[6..] == seg;
  }

  lemma GoodAddPaper(f: Feed, p: PaperResult)
    requires Good(f) && Emitted(p)
    ensures Good(f.(papers := f.papers + [p]))
  {
  }

  lemma GoodAddAuthor(f: Feed, a: string)
    requires Good(f) && TrimmedName(a)
    ensures Good(f.(authors := f.authors + [a]))
  {
  }

  lemma OnEndGood(f: Feed, name: string)
    requires Good(f)
    ensures Good(OnEnd(f, name))
    ensures IsPrefixOf(f.papers, OnEnd(f, name).papers)
  {
    var g: Feed;
    if name == "entry" && f.inEntry {
      var h := f.(inEntry := false);
      assert Good(h);
      if EntryPaper(f).Some? {
        EntryPaperEmitted(f);
        GoodAddPaper(h, EntryPaper(f).value);
        g := h.(papers := h.papers + [EntryPaper(f).value]);
      } else {
        g := h;
      }
    } else if name == "author" && f.inAuthor {
      var h := f.(inAuthor := false);
      assert Good(h);
      if Trim(f.authorName) != [] {
        GoodAddAuthor(h, Trim(f.authorName));
        g := h.(authors := h.authors + [Trim(f.authorName)]);
      } else {
        g := h;
      }
    } else {
      g := f;
    }
    assert OnEnd(f, name) == if name == f.currentTag then g.(currentTag := "") else g;
  }

  /** Every step keeps the author names trimmed and the emitted papers well formed, and only appends papers. */
  lemma StepGood(f: Feed, e: XmlEvent)
    requires Good(f)
    ensures Good(Step(f, e))
    ensures IsPrefixOf(f.papers, Step(f, e).papers)
  {
    match e {
      case End(name) => OnEndGood(f, name);
      case Start(name, attrs) =>
        assert Step(f, e).papers == f.papers;
        assert Step(f, e).authors == f.authors || Step(f, e).authors == [];
      case Empty(name, attrs) =>
        assert Step(f, e).papers == f.papers && Step(f, e).authors == f.authors;
      case Text(text) =>
        assert Step(f, e).papers == f.papers && Step(f, e).authors == f.authors;
      case _ =>
    }
  }

  predicate IsPrefixOf(a: seq<PaperResult>, b: seq<PaperResult>) {
    |a| <= |b| && b[..|a|] == a
  }

  /**
   * Every paper the parse returns is well formed, and the papers already emitted come first,
   * in order.
   */
  lemma {:induction false} RunGood(f: Feed, events: seq<XmlEvent>)
    requires Good(f)
    ensures Run(f, events).Ok? ==> forall p :: p in Run(f, events).value ==> Emitted(p)
    ensures Run(f, events).Ok? ==> IsPrefixOf(f.papers, Run(f, events).value)
    decreases |events|
  {
    if events != [] && !events[0].Eof? && !events[0].Malformed? {
      StepGood(f, events[0]);
      RunGood(Step(f, events[0]), events[1..]);
    }
  }

  lemma ParseFeedGood(events: seq<XmlEvent>)
    ensures ParseFeed(events).Ok? ==> forall p :: p in ParseFeed(events).value ==> Emitted(p)
  {
    RunGood(Initial, events);
  }

  /** The parse fails exactly when an error event comes before any end-of-input event. */
  lemma {:induction false} RunFails(f: Feed, events: seq<XmlEvent>)
    ensures Run(f, events).Err? <==>
      exists i :: 0 <= i < |events| && events[i].Malformed? && forall j :: 0 <= j < i ==> !events[j].Eof?
    decreases |events|
  {
    if events != [] {
      if events[0].Malformed? {
      } else if events[0].Eof? {
        forall i | 0 <= i < |events| && events[i].Malformed?
          ensures !forall j :: 0 <= j < i ==> !events[j].Eof?
        {
          assert i > 0;
          assert events[0].Eof?;
        }
      } else {
        var rest := events[1..];
        RunFails(Step(f, events[0]), rest);
        if exists i :: 0 <= i < |rest| && rest[i].Malformed? && forall j :: 0 <= j < i ==> !rest[j].Eof? {
          var i :| 0 <= i < |rest| && rest[i].Malformed? && forall j :: 0 <= j < i ==> !rest[j].Eof?;
          assert events[i + 1].Malformed?;
          forall j | 0 <= j < i + 1 ensures !events[j].Eof? {
            if j > 0 { assert events[j] == rest[j - 1]; }
          }
        }
        if exists i :: 0 <= i < |events| && events[i].Malformed? && forall j :: 0 <= j < i ==> !events[j].Eof? {
          var i :| 0 <= i < |events| && events[i].Malformed? && forall j :: 0 <= j < i ==> !events[j].Eof?;
          assert i > 0;
          assert rest[i - 1].Malformed?;
          forall j | 0 <= j < i - 1 ensures !rest[j].Eof? {
            assert rest[j] == events[j + 1];
          }
        }
      }
    }
  }

  // ---------------------------------------------------------------- the sample feed

  /** A simple element with one text inside an entry. */
  function Element(tag: string, t: string): seq<XmlEvent> {
    [Start(tag, []), Text(t), End(tag)]
  }

  lemma RunElement(f: Feed, tag: string, t: string, rest: seq<XmlEvent>)
    requires f.inEntry && tag != "entry" && tag != "author" && tag != "link"
    ensures Run(f, Element(tag, t) + rest) == Run(OnText(f.(currentTag := tag), t).(currentTag := ""), rest)
  {
    var ev := Element(tag, t) + rest;
    var g := f.(currentTag := tag);
    assert Step(f, Start(tag, [])) == g;
    var h := OnText(g, t);
    assert h.currentTag == tag && h.inAuthor == f.inAuthor;
    assert Step(h, End(tag)) == h.(currentTag := "");
    var ev1 := ev[1..];
    var ev2 := ev1[1..];
    assert ev[0] == Start(tag, []) && ev1[0] == Text(t) && ev2[0] == End(tag) && ev2[1..] == rest;
    assert Run(f, ev) == Run(g, ev1);
    assert Run(g, ev1) == Run(h, ev2);
    assert Run(h, ev2) == Run(h.(currentTag := ""), rest);
  }

  /** One `author` element holding one `name`: its opening events, then its closing ones. */
  function Author(name: string): seq<XmlEvent> {
    AuthorOpen(name) + AuthorClose()
  }

  function AuthorOpen(name: string): seq<XmlEvent> {
    [Start("author", []), Start("name", []), Text(name)]
  }

  function AuthorClose(): seq<XmlEvent> {
    [End("name"), End("author")]
  }

  /** The state after an `author` element with one `name` text. */
  function AfterAuthor(f: Feed, name: string): Feed {
    f.(inAuthor := false, authorName := name,
       authors := if Trim(name) != [] then f.authors + [Trim(name)] else f.authors)
  }

  lemma RunAuthor(f: Feed, name: string, rest: seq<XmlEvent>)
    requires f.inEntry && f.currentTag == ""
    ensures Run(f, Author(name) + rest) == Run(AfterAuthor(f, name), rest)
  {
    var k := f.(currentTag := "name", inAuthor := true, authorName := name);
    AuthorOpenSteps(f, name);
    AuthorCloseSteps(f, name);
    assert Author(name) + rest == AuthorOpen(name) + (AuthorClose() + rest);
    RunAppend(f, AuthorOpen(name), AuthorClose() + rest);
    RunAppend(k, AuthorClose(), rest);
  }

  lemma AuthorOpenSteps(f: Feed, name: string)
    requires f.inEntry && f.currentTag == ""
    ensures Plain(AuthorOpen(name))
    ensures Steps(f, AuthorOpen(name)) == f.(currentTag := "name", inAuthor := true, authorName := name)
  {
    var g := f.(currentTag := "author", inAuthor := true, authorName := "");
    var h := g.(currentTag := "name");
    var ev := AuthorOpen(name);
    assert Step(f, Start("author", [])) == g;
    assert Step(g, Start("name", [])) == h;
    assert ev[1..] == [Start("name", []), Text(name)] && ev[1..][1..] == [Text(name)];
    assert Steps(f, ev) == Steps(g, ev[1..]);
    assert Steps(g, ev[1..]) == Steps(h, [Text(name)]);
    var k := h.(authorName := name);
    assert Step(h, Text(name)) == k;
    assert [Text(name)][1..] == [];
    assert Steps(h, [Text(name)]) == Steps(k, []);
  }

  lemma AuthorCloseSteps(f: Feed, name: string)
    requires f.inEntry && f.currentTag == ""
    ensures Plain(AuthorClose())
    ensures Steps(f.(currentTag := "name", inAuthor := true, authorName := name), AuthorClose()) == AfterAuthor(f, name)
  {
    var k := f.(currentTag := "name", inAuthor := true, authorName := name);
    var l := k.(currentTag := "");
    var ev := AuthorClose();
    assert Step(k, End("name")) == l;
    assert ev[1..] == [End("author")];
    assert Steps(k, ev) == Steps(l, [End("author")]);
  }

  /** The state after events that hold neither the end of input nor an error. */
  function Steps(f: Feed, ev: seq<XmlEvent>): Feed
    decreases |ev|
  {
    if ev == [] then f else Steps(Step(f, ev[0]), ev[1..])
  }

  predicate Plain(ev: seq<XmlEvent>) {
    forall i :: 0 <= i < |ev| ==> !ev[i].Eof? && !ev[i].Malformed?
  }

  /** The loop runs through plain events one step at a time and carries on with the rest. */
  lemma {:induction false} RunAppend(f: Feed, pre: seq<XmlEvent>, rest: seq<XmlEvent>)
    requires Plain(pre)
    ensures Run(f, pre + rest) == Run(Steps(f, pre), rest)
    decreases |pre|
  {
    if pre == [] {
      assert pre + rest == rest;
    } else {
      var ev := pre + rest;
      assert ev[0] == pre[0] && ev[1..] == pre[1..] + rest;
      RunAppend(Step(f, pre[0]), pre[1..], rest);
    }
  }

  const SAMPLE_ID: string := "http://arxiv.org/abs/2301.12345v1"
  const SAMPLE_PDF: string := "http://arxiv.org/pdf/2301.12345v1"
  const SAMPLE_TITLE: string := "Test Paper on AdS/CFT"
  const SAMPLE_SUMMARY: string := "This is a test abstract about AdS/CFT correspondence."
  const SAMPLE_PUBLISHED: string := "2023-01-15T00:00:00Z"

  /** The two links of the sample entry, as self-closing elements, followed by the feed's end. */
  function SampleLinks(): seq<XmlEvent> {
    [Empty("link", [("href", SAMPLE_ID), ("rel", "alternate"), ("type", "text/html")]),
     Empty("link", [("href", SAMPLE_PDF), ("title", "pdf"), ("type", "application/pdf")]),
     End("entry"), End("feed"), Eof]
  }

  /** The sample entry's elements, from its `id` to its end, and the feed's end. */
  function SampleBody(): seq<XmlEvent> {
    Element("id", SAMPLE_ID) + Element("title", SAMPLE_TITLE) + Element("summary", SAMPLE_SUMMARY)
    + Element("published", SAMPLE_PUBLISHED) + Author("John Doe") + Author("Jane Smith") + SampleLinks()
  }

  /** The events of the module's sample feed, without the white space between elements. */
  function SampleEvents(): seq<XmlEvent> {
    [Other, Start("feed", [("xmlns", "http://www.w3.org/2005/Atom")]), Start("entry", [])] + SampleBody()
  }

  /** The state once the sample entry's elements are read. */
  const SampleRead: Feed := Feed(true, "", SAMPLE_TITLE, SAMPLE_SUMMARY, SAMPLE_ID, ["John Doe", "Jane Smith"],
                                 SAMPLE_PUBLISHED, "", "", "Jane Smith", false, None, [])

  /** The sample entry once its four text elements are read, before its authors. */
  const SampleText: Feed := Feed(true, "", SAMPLE_TITLE, SAMPLE_SUMMARY, SAMPLE_ID, [],
                                 SAMPLE_PUBLISHED, "", "", "", false, None, [])

  /** The sample entry once its two links are read too. */
  const SampleComplete: Feed := SampleRead.(linkAbs := SAMPLE_ID, linkPdf := SAMPLE_PDF)

  lemma SampleSegment()
    ensures AfterLast(SAMPLE_ID, "/") == "2301.12345v1"
  {
    AfterLastChar("http://arxiv.org/abs", '/', "2301.12345v1");
    assert SAMPLE_ID == "http://arxiv.org/abs" + ['/'] + "2301.12345v1";
  }

  lemma SampleId()
    ensures "arxiv:" + "2301.12345v1" == "arxiv:2301.12345v1"
  {
    var a, b := "arxiv:" + "2301.12345v1", "arxiv:2301.12345v1";
    assert |a| == |b|;
    forall i | 0 <= i < |a| ensures a[i] == b[i] {
      if i < 6 { assert a[i] == "arxiv:"[i]; } else { assert a[i] == "2301.12345v1"[i - 6]; }
    }
  }

  lemma SampleYear()
    ensures PublishedYear(SAMPLE_PUBLISHED) == Some(2023)
  {
    assert SAMPLE_PUBLISHED[..4] == "2023";
    assert AllDigits("2023");
    assert DigitsValue("2023") == 2023 by {
      assert "2023"[..3] == "202" && "202"[..2] == "20" && "20"[..1] == "2" && "2"[..0] == "";
    }
  }

  lemma SampleTitle()
    ensures Trim(SAMPLE_TITLE) != [] && Contains(Clean(SAMPLE_TITLE), "AdS/CFT")
  {
    var t := SAMPLE_TITLE;
    assert !IsSpace(t[0]) && !IsSpace(t[|t| - 1]);
    assert '\n' !in t;
    assert IsPrefix("AdS/CFT", t[14..]);
  }

  /** The sample entry yields the paper the module's own sample expects. */
  lemma SampleEntryPaper()
    ensures var p := EntryPaper(SampleComplete);
      && p.Some? && p.value.id == "arxiv:2301.12345v1" && Contains(p.value.title, "AdS/CFT")
      && |p.value.authors| == 2 && p.value.year == Some(2023) && p.value.pdfUrl == Some(SAMPLE_PDF)
  {
    SampleSegment();
    SampleId();
    SampleYear();
    SampleTitle();
  }

  lemma SampleAbsAttrs()
    ensures LinkAttrs([("href", SAMPLE_ID), ("rel", "alternate"), ("type", "text/html")]) == (SAMPLE_ID, "")
    ensures Contains(SAMPLE_ID, "abs")
  {
    var b1 := [("href", SAMPLE_ID)];
    assert b1[..0] == [];
    assert LinkAttrs(b1) == (SAMPLE_ID, "");
    var b2 := b1 + [("rel", "alternate")];
    assert b2[..1] == b1;
    assert LinkAttrs(b2) == (SAMPLE_ID, "");
    var b3 := b2 + [("type", "text/html")];
    assert b3[..2] == b2;
    assert b3 == [("href", SAMPLE_ID), ("rel", "alternate"), ("type", "text/html")];
    assert IsPrefix("abs", SAMPLE_ID[17..]);
  }

  lemma SamplePdfAttrs()
    ensures LinkAttrs([("href", SAMPLE_PDF), ("title", "pdf"), ("type", "application/pdf")]) == (SAMPLE_PDF, "pdf")
  {
    var b1 := [("href", SAMPLE_PDF)];
    assert b1[..0] == [];
    assert LinkAttrs(b1) == (SAMPLE_PDF, "");
    var b2 := b1 + [("title", "pdf")];
    assert b2[..1] == b1;
    assert LinkAttrs(b2) == (SAMPLE_PDF, "pdf");
    var b3 := b2 + [("type", "application/pdf")];
    assert b3[..2] == b2;
    assert b3 == [("href", SAMPLE_PDF), ("title", "pdf"), ("type", "application/pdf")];
  }

  lemma SampleLinksRun()
    ensures Run(SampleRead, SampleLinks()) == Ok(CloseEntry(SampleComplete).papers)
  {
    SampleAbsAttrs();
    SamplePdfAttrs();
    var ev := SampleLinks();
    var s1 := SampleRead.(linkAbs := SAMPLE_ID);
    assert Step(SampleRead, ev[0]) == s1;
    assert Step(s1, ev[1]) == SampleComplete;
    var s3 := CloseEntry(SampleComplete);
    assert Step(SampleComplete, ev[2]) == s3;
    assert Step(s3, ev[3]) == s3;
    assert ev[1..][1..][1..][1..] == [Eof];
    assert Run(SampleRead, ev) == Run(s1, ev[1..]);
    assert Run(s1, ev[1..]) == Run(SampleComplete, ev[1..][1..]);
    assert Run(SampleComplete, ev[1..][1..]) == Run(s3, ev[1..][1..][1..]);
    assert Run(s3, ev[1..][1..][1..]) == Run(s3, [Eof]);
  }

  /** The entry's text elements and authors lead to `SampleRead`. */
  lemma SampleBodyRun()
    ensures Run(Initial.(inEntry := true), SampleBody()) == Run(SampleRead, SampleLinks())
  {
    var links := SampleLinks();
    var t4 := Author("John Doe") + Author("Jane Smith") + links;
    assert Element("id", SAMPLE_ID) + Element("title", SAMPLE_TITLE) + Element("summary", SAMPLE_SUMMARY)
           + Element("published", SAMPLE_PUBLISHED) + Author("John Doe") + Author("Jane Smith") + links
           == Element("id", SAMPLE_ID) + (Element("title", SAMPLE_TITLE) + (Element("summary", SAMPLE_SUMMARY)
              + (Element("published", SAMPLE_PUBLISHED) + t4)));
    SampleTextRun(t4);
    SampleAuthorsRun(links);
  }

  /** The entry's four text elements fill in its id, title, summary and publication date. */
  lemma SampleTextRun(rest: seq<XmlEvent>)
    ensures Run(Initial.(inEntry := true), Element("id", SAMPLE_ID) + (Element("title", SAMPLE_TITLE)
              + (Element("summary", SAMPLE_SUMMARY) + (Element("published", SAMPLE_PUBLISHED) + rest))))
      == Run(SampleText, rest)
  {
    var t3 := Element("published", SAMPLE_PUBLISHED) + rest;
    var t2 := Element("summary", SAMPLE_SUMMARY) + t3;
    var t1 := Element("title", SAMPLE_TITLE) + t2;
    var e0 := Initial.(inEntry := true);
    RunElement(e0, "id", SAMPLE_ID, t1);
    var e1 := e0.(idText := SAMPLE_ID);
    assert OnText(e0.(currentTag := "id"), SAMPLE_ID).(currentTag := "") == e1;
    RunElement(e1, "title", SAMPLE_TITLE, t2);
    var e2 := e1.(title := SAMPLE_TITLE);
    assert OnText(e1.(currentTag := "title"), SAMPLE_TITLE).(currentTag := "") == e2;
    RunElement(e2, "summary", SAMPLE_SUMMARY, t3);
    var e3 := e2.(summary := SAMPLE_SUMMARY);
    assert OnText(e2.(currentTag := "summary"), SAMPLE_SUMMARY).(currentTag := "") == e3;
    RunElement(e3, "published", SAMPLE_PUBLISHED, rest);
    var e4 := e3.(published := SAMPLE_PUBLISHED);
    assert OnText(e3.(currentTag := "published"), SAMPLE_PUBLISHED).(currentTag := "") == e4;
    assert e4 == SampleText;
  }

  /** The two `author` elements add both names, in order. */
  lemma SampleAuthorsRun(rest: seq<XmlEvent>)
    ensures Run(SampleText, Author("John Doe") + Author("Jane Smith") + rest) == Run(SampleRead, rest)
  {
    SampleNames();
    SampleReadShape();
    RunTwoAuthors(SampleText, "John Doe", "Jane Smith", rest);
  }

  /** The sample entry before and after both authors. */
  lemma SampleReadShape()
    ensures SampleText.inEntry && SampleText.currentTag == ""
    ensures SampleText == WithAuthors(SampleText, [], "")
    ensures SampleRead == WithAuthors(SampleText, ["John Doe", "Jane Smith"], "Jane Smith")
  {
  }

  /** Two `author` elements in a row, each with a trimmed, non-empty name. */
  lemma RunTwoAuthors(f: Feed, a: string, b: string, rest: seq<XmlEvent>)
    requires f.inEntry && f.currentTag == ""
    requires Trim(a) == a && a != [] && Trim(b) == b && b != []
    ensures Run(WithAuthors(f, [], ""), Author(a) + Author(b) + rest) == Run(WithAuthors(f, [a, b], b), rest)
  {
    assert Author(a) + Author(b) + rest == Author(a) + (Author(b) + rest);
    AfterTrimmedAuthor(f, [], "", a);
    assert [] + [a] == [a];
    RunAuthor(WithAuthors(f, [], ""), a, Author(b) + rest);
    AfterTrimmedAuthor(f, [a], a, b);
    assert [a] + [b] == [a, b];
    RunAuthor(WithAuthors(f, [a], a), b, rest);
  }

  /** A feed inside an entry with the author list and the last author's name set. */
  function WithAuthors(f: Feed, authors: seq<string>, name: string): Feed {
    f.(authors := authors, authorName := name, inAuthor := false)
  }

  /** An author element with a trimmed, non-empty name appends that name to the list. */
  lemma AfterTrimmedAuthor(f: Feed, authors: seq<string>, name: string, a: string)
    requires Trim(a) == a && a != []
    ensures AfterAuthor(WithAuthors(f, authors, name), a) == WithAuthors(f, authors + [a], a)
  {
  }

  lemma SampleNames()
    ensures Trim("John Doe") == "John Doe" && Trim("Jane Smith") == "Jane Smith"
  {
    assert !IsSpace("John Doe"[0]) && !IsSpace("John Doe"[7]);
    assert !IsSpace("Jane Smith"[0]) && !IsSpace("Jane Smith"[9]);
  }

  /**
   * The module's own sample: one entry, read as one paper with id "arxiv:2301.12345v1", a
   * title holding "AdS/CFT", both authors, the year 2023 and the PDF link.
   */
  lemma SampleFeed()
    ensures ParseFeed(SampleEvents()).Ok? && |ParseFeed(SampleEvents()).value| == 1
    ensures var p := ParseFeed(SampleEvents()).value[0];
      && p.id == "arxiv:2301.12345v1" && Contains(p.title, "AdS/CFT")
      && |p.authors| == 2 && p.year == Some(2023) && p.pdfUrl.Some?
  {
    var head := [Other, Start("feed", [("xmlns", "http://www.w3.org/2005/Atom")]), Start("entry", [])];
    assert Steps(Initial, head) == Initial.(inEntry := true) by {
      assert head[1..] == [Start("feed", [("xmlns", "http://www.w3.org/2005/Atom")]), Start("entry", [])];
      assert head[1..][1..] == [Start("entry", [])] && [Start("entry", [])][1..] == [];
    }
    RunAppend(Initial, head, SampleBody());
    SampleBodyRun();
    SampleLinksRun();
    SampleEntryPaper();
  }
}
