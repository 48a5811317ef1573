/**
 * Server configuration: the settings read from the environment, the sources that are built
 * from them (in a fixed order, an optional name filter and the ADS key deciding which), and
 * the status report of every known source. Source clients are represented by their names.
 */
module Config {
  import opened Wrappers
  import opened Strings

  /** The paper sources the server knows. */
  datatype Source =
    | Arxiv | Inspire | CrossRef | Doaj | EuropePmc | Vixra | SemanticScholar | OpenAlex | Ads

  /** A source's name, as `PaperSource::name` gives it. */
  function Name(s: Source): (n: string)
    ensures |n| > 0
  {
    match s
    case Arxiv => "arxiv"
    case Inspire => "inspire"
    case CrossRef => "crossref"
    case Doaj => "doaj"
    case EuropePmc => "europepmc"
    case Vixra => "vixra"
    case SemanticScholar => "semantic_scholar"
    case OpenAlex => "openalex"
    case Ads => "ads"
  }

  /** The names are lower case already, so lower-casing one changes nothing. */
  lemma LowerName(s: Source)
    ensures Lower(Name(s)) == Name(s)
  {
    var n := Name(s);
    assert forall i :: 0 <= i < |n| ==> !IsUpperAlpha(n[i]);
    assert forall i :: 0 <= i < |n| ==> Lower(n)[i] == n[i];
  }

  /** The order in which `build_sources` creates the sources. */
  const BUILD_ORDER: seq<Source> :=
    [Arxiv, Inspire, CrossRef, Doaj, EuropePmc, Vixra, SemanticScholar, OpenAlex, Ads]

  /** The order in which `source_status` reports them. */
  const STATUS_ORDER: seq<Source> :=
    [Arxiv, Inspire, SemanticScholar, OpenAlex, CrossRef, Ads, EuropePmc, Doaj, Vixra]

  const NO_KEY_NOTE: string := "No API key required"
  const FILTER_NOTE: string := "Disabled by PAPER_SEARCH_SOURCES filter"

  /** The environment, as the variables that are set. */
  type Env = map<string, string>

  datatype Config = Config(
    dataDir: string,
    semanticScholarApiKey: Option<string>,
    adsApiKey: Option<string>,
    openalexEmail: Option<string>,
    unpaywallEmail: Option<string>,
    enabledSourceNames: seq<string>)

  datatype SourceStatus = SourceStatus(name: string, enabled: bool, note: string)

  function Lookup(env: Env, key: string): Option<string> {
    if key in env then Some(env[key]) else None
  }

  /** Lower case, without surrounding whitespace, and without a comma. */
  predicate IsFilterName(n: string) {
    && ',' !in n
    && (n == [] || (!IsSpace(n[0]) && !IsSpace(n[|n| - 1])))
    && forall i :: 0 <= i < |n| ==> !IsUpperAlpha(n[i])
  }

  /** One entry of the filter: a comma-separated piece, trimmed and lower-cased. */
  function FilterName(piece: string): (n: string)
    requires ',' !in piece
    ensures IsFilterName(n)
  {
    var t := Trim(piece);
    LowerFilterName(t);
    Lower(t)
  }

  /** Lower-casing text without a comma and without surrounding whitespace gives a filter name. */
  lemma LowerFilterName(t: string)
    requires ',' !in t
    requires t == [] || (!IsSpace(t[0]) && !IsSpace(t[|t| - 1]))
    ensures IsFilterName(Lower(t))
  {
    var n := Lower(t);
    forall i | 0 <= i < |n| ensures n[i] != ',' {
      assert t[i] in t;
    }
  }

  /**
   * The `PAPER_SEARCH_SOURCES` filter: each comma-separated piece trimmed and lower-cased;
   * unset is the empty filter. A set variable always gives at least one entry, so an empty
   * value gives the filter [""].
   */
  function ParseFilter(v: Option<string>): (r: seq<string>)
    ensures v.None? <==> r == []
    ensures forall i :: 0 <= i < |r| ==> IsFilterName(r[i])
    ensures v.Some? ==> |r| == |SplitChar(v.value, ',')|
    ensures v.Some? ==> forall i :: 0 <= i < |r| ==> r[i] == FilterName(SplitChar(v.value, ',')[i])
  {
    match v
    case None => []
    case Some(s) =>
      var pieces := SplitChar(s, ',');
      seq(|pieces|, i requires 0 <= i < |pieces| => FilterName(pieces[i]))
  }

  /**
   * `PathBuf::join` of a relative component: the component alone after an empty path, no
   * separator after a path that already ends in '/', and one '/' otherwise.
   */
  function JoinPath(base: string, name: string): (r: string)
    ensures |r| == |base| + |name| + (if base == [] || base[|base| - 1] == '/' then 0 else 1)
    ensures base <= r && r[|r| - |name|..] == name
    ensures base != [] && base[|base| - 1] != '/' ==> r[|base|] == '/'
  {
    if base == [] then name
    else if base[|base| - 1] == '/' then base + name
    else base + "/" + name
  }

  /** `dirs_or_default().join(".paper-search")`: `HOME`, or the current directory. */
  function DefaultDataDir(env: Env): string {
    JoinPath(Lookup(env, "HOME").UnwrapOr("."), ".paper-search")
  }

  /** `Config::from_env` */
  function FromEnv(env: Env): (c: Config)
    ensures "PAPER_SEARCH_DATA_DIR" in env ==> c.dataDir == env["PAPER_SEARCH_DATA_DIR"]
    ensures "PAPER_SEARCH_DATA_DIR" !in env && "HOME" !in env ==> c.dataDir == "./.paper-search"
    ensures "PAPER_SEARCH_DATA_DIR" !in env && "HOME" in env && env["HOME"] == "" ==>
              c.dataDir == ".paper-search"
    ensures "PAPER_SEARCH_DATA_DIR" !in env && "HOME" in env && env["HOME"] != "" ==>
              var home := env["HOME"];
              c.dataDir == home + (if home[|home| - 1] == '/' then "" else "/") + ".paper-search"
    ensures c.adsApiKey.Some? <==> "ADS_API_KEY" in env
    ensures c.semanticScholarApiKey.Some? <==> "SEMANTIC_SCHOLAR_API_KEY" in env
    ensures c.openalexEmail.Some? <==> "OPENALEX_EMAIL" in env
    ensures c.enabledSourceNames == [] <==> "PAPER_SEARCH_SOURCES" !in env
  {
    Config(
      Lookup(env, "PAPER_SEARCH_DATA_DIR").UnwrapOr(DefaultDataDir(env)),
      Lookup(env, "SEMANTIC_SCHOLAR_API_KEY"),
      Lookup(env, "ADS_API_KEY"),
      Lookup(env, "OPENALEX_EMAIL"),
      Lookup(env, "UNPAYWALL_EMAIL"),
      ParseFilter(Lookup(env, "PAPER_SEARCH_SOURCES")))
  }

  /** `should_enable`: no filter, or the lower-cased name is one of its entries. */
  predicate ShouldEnable(filter: seq<string>, name: string) {
    filter == [] || Lower(name) in filter
  }

  /** Whether `build_sources` creates the source: ADS additionally needs its key. */
  predicate Enabled(c: Config, s: Source) {
    ShouldEnable(c.enabledSourceNames, Name(s)) && (s == Ads ==> c.adsApiKey.Some?)
  }

  /** `sources` with `s` appended when it is enabled. */
  function Step(c: Config, sources: seq<Source>, s: Source): seq<Source> {
    if Enabled(c, s) then sources + [s] else sources
  }

  /** The first `k` sources of the creation order that are enabled, in that order. */
  function Created(c: Config, k: nat): seq<Source>
    requires k <= |BUILD_ORDER|
  {
    if k == 0 then [] else Step(c, Created(c, k - 1), BUILD_ORDER[k - 1])
  }

  /** The sources `build_sources` creates, in creation order. */
  function EnabledSources(c: Config): seq<Source> {
    Created(c, |BUILD_ORDER|)
  }

  /**
   * One step of `build_sources`: the source is pushed when `should_enable` lets it through
   * and, for ADS, when its key is set (otherwise ADS is skipped with a warning).
   */
  method PushIfEnabled(c: Config, sources: seq<Source>, s: Source) returns (out: seq<Source>)
    ensures out == Step(c, sources, s)
  {
    out := sources;
    if ShouldEnable(c.enabledSourceNames, Name(s)) {
      if s == Ads && c.adsApiKey.None? {
        return;
      }
      out := sources + [s];
    }
  }

  /**
   * `Config::build_sources`: the sources tried in creation order. The source writes one
   * conditional push per source, in the order of `BUILD_ORDER`; the loop runs the same pushes.
   */
  method BuildSources(c: Config) returns (sources: seq<Source>)
    ensures sources == EnabledSources(c)
  {
    sources := [];
    for k := 0 to |BUILD_ORDER|
      invariant sources == Created(c, k)
    {
      sources := PushIfEnabled(c, sources, BUILD_ORDER[k]);
    }
  }

  /** The position of a source in the creation order. */
  function BuildRank(s: Source): (k: nat)
    ensures k < |BUILD_ORDER| && BUILD_ORDER[k] == s
  {
    match s
    case Arxiv => 0
    case Inspire => 1
    case CrossRef => 2
    case Doaj => 3
    case EuropePmc => 4
    case Vixra => 5
    case SemanticScholar => 6
    case OpenAlex => 7
    case Ads => 8
  }

  /** No source appears twice in the creation order. */
  lemma RankOf(k: nat)
    requires k < |BUILD_ORDER|
    ensures BuildRank(BUILD_ORDER[k]) == k
  {
    if k == 0 {} else if k == 1 {} else if k == 2 {} else if k == 3 {} else if k == 4 {}
    else if k == 5 {} else if k == 6 {} else if k == 7 {} else {}
  }

  /** Among the first `k` sources, exactly the enabled ones are created. */
  lemma {:induction false} CreatedMember(c: Config, k: nat, s: Source)
    requires k <= |BUILD_ORDER|
    ensures s in Created(c, k) <==> BuildRank(s) < k && Enabled(c, s)
  {
    if k > 0 {
      var x := BUILD_ORDER[k - 1];
      CreatedMember(c, k - 1, s);
      RankOf(k - 1);
      StepMember(c, Created(c, k - 1), x, s);
      assert BuildRank(s) == k - 1 ==> s == x;
    }
  }

  /** A step adds its source, when enabled, and nothing else. */
  lemma StepMember(c: Config, sources: seq<Source>, x: Source, s: Source)
    ensures s in Step(c, sources, x) <==> s in sources || (s == x && Enabled(c, x))
  {
  }

  /** The created sources keep the creation order. */
  lemma {:induction false} CreatedOrdered(c: Config, k: nat)
    requires k <= |BUILD_ORDER|
    ensures forall i, j :: 0 <= i < j < |Created(c, k)| ==>
              BuildRank(Created(c, k)[i]) < BuildRank(Created(c, k)[j])
  {
    if k > 0 {
      CreatedOrdered(c, k - 1);
      var prev := Created(c, k - 1);
      if Enabled(c, BUILD_ORDER[k - 1]) {
        var r := Created(c, k);
        RankOf(k - 1);
        forall i, j | 0 <= i < j < |r| ensures BuildRank(r[i]) < BuildRank(r[j]) {
          if j == |prev| {
            CreatedMember(c, k - 1, prev[i]);
          }
        }
      }
    }
  }

  /**
   * A source is created exactly when it is enabled, and the created sources keep the
   * creation order, so none is created twice.
   */
  lemma EnabledSourcesMember(c: Config, s: Source)
    ensures s in EnabledSources(c) <==> Enabled(c, s)
    ensures forall i, j :: 0 <= i < j < |EnabledSources(c)| ==>
              BuildRank(EnabledSources(c)[i]) < BuildRank(EnabledSources(c)[j])
  {
    CreatedMember(c, |BUILD_ORDER|, s);
    CreatedOrdered(c, |BUILD_ORDER|);
  }

  /** Without a filter every source is created, ADS only with its key. */
  lemma NoFilterEnablesAll(c: Config, s: Source)
    requires c.enabledSourceNames == []
    ensures s in EnabledSources(c) <==> s != Ads || c.adsApiKey.Some?
  {
    EnabledSourcesMember(c, s);
  }

  /** A set but empty `PAPER_SEARCH_SOURCES` is the filter [""], which lets nothing through. */
  lemma EmptyFilterDisablesAll(env: Env)
    requires "PAPER_SEARCH_SOURCES" in env && env["PAPER_SEARCH_SOURCES"] == ""
    ensures FromEnv(env).enabledSourceNames == [""]
    ensures EnabledSources(FromEnv(env)) == []
  {
    var c := FromEnv(env);
    assert SplitChar("", ',') == [[]];
    assert Trim("") == "";
    var r := EnabledSources(c);
    if r != [] {
      EnabledSourcesMember(c, r[0]);
      LowerName(r[0]);
    }
  }

  /**
   * The filter ignores case and surrounding whitespace: a source named by any piece of the
   * variable, in any case and with any padding, is created (ADS only with its key).
   */
  lemma FilterToleratesCaseAndSpace(env: Env, s: Source, k: nat)
    requires s == Ads ==> "ADS_API_KEY" in env
    requires "PAPER_SEARCH_SOURCES" in env
    requires k < |SplitChar(env["PAPER_SEARCH_SOURCES"], ',')|
    requires Lower(Trim(SplitChar(env["PAPER_SEARCH_SOURCES"], ',')[k])) == Name(s)
    ensures s in EnabledSources(FromEnv(env))
  {
    var c := FromEnv(env);
    LowerName(s);
    assert c.enabledSourceNames[k] == Name(s);
    EnabledSourcesMember(c, s);
  }

  /** The fixed status entries, before the filter is applied. */
  function BaseStatuses(c: Config): (r: seq<SourceStatus>)
    ensures |r| == |STATUS_ORDER|
    ensures forall i :: 0 <= i < |r| ==> r[i].name == Name(STATUS_ORDER[i])
    ensures forall i :: 0 <= i < |r| ==> (r[i].enabled <==> STATUS_ORDER[i] != Ads || c.adsApiKey.Some?)
  {
    [ SourceStatus(Name(Arxiv), true, NO_KEY_NOTE),
      SourceStatus(Name(Inspire), true, NO_KEY_NOTE),
      SourceStatus(Name(SemanticScholar), true,
        if c.semanticScholarApiKey.Some? then "API key set" else "No API key (rate limited)"),
      SourceStatus(Name(OpenAlex), true,
        if c.openalexEmail.Some? then "Polite pool email set" else "No email (limited rate)"),
      SourceStatus(Name(CrossRef), true, NO_KEY_NOTE),
      SourceStatus(Name(Ads), c.adsApiKey.Some?,
        if c.adsApiKey.Some? then "API key set" else "Disabled: ADS_API_KEY not set"),
      SourceStatus(Name(EuropePmc), true, NO_KEY_NOTE),
      SourceStatus(Name(Doaj), true, NO_KEY_NOTE),
      SourceStatus(Name(Vixra), true, "HTML scraping") ]
  }

  /**
   * An entry after the filter: a name a non-empty filter does not list is disabled and
   * carries the filter note, whether or not it was enabled before; every other entry is
   * unchanged.
   */
  function FilterStatus(s: SourceStatus, filter: seq<string>): (r: SourceStatus)
    ensures r.name == s.name
    ensures r.enabled <==> s.enabled && (filter == [] || s.name in filter)
    ensures r.enabled ==> r == s
    ensures !r.enabled && s.enabled ==> r.note == FILTER_NOTE
    ensures filter != [] && s.name !in filter ==> !r.enabled && r.note == FILTER_NOTE
    ensures filter == [] || s.name in filter ==> r == s
  {
    if filter != [] && s.name !in filter then s.(enabled := false, note := FILTER_NOTE) else s
  }

  /** `Config::source_status`: the fixed entries, then the filter applied to each in place. */
  method SourceStatuses(c: Config) returns (statuses: seq<SourceStatus>)
    ensures |statuses| == |STATUS_ORDER|
    ensures forall i :: 0 <= i < |statuses| ==>
      statuses[i] == FilterStatus(BaseStatuses(c)[i], c.enabledSourceNames)
  {
    var base := BaseStatuses(c);
    statuses := base;
    if c.enabledSourceNames != [] {
      var i := 0;
      while i < |statuses|
        invariant 0 <= i <= |statuses| == |base|
        invariant forall j :: 0 <= j < i ==> statuses[j] == FilterStatus(base[j], c.enabledSourceNames)
        invariant forall j :: i <= j < |statuses| ==> statuses[j] == base[j]
      {
        if statuses[i].name !in c.enabledSourceNames {
          statuses := statuses[i := statuses[i].(enabled := false, note := FILTER_NOTE)];
        }
        i := i + 1;
      }
    }
  }

  /** The report and the created sources agree: a source is reported enabled iff it is created. */
  lemma StatusAgreesWithSources(c: Config, i: nat)
    requires i < |STATUS_ORDER|
    ensures FilterStatus(BaseStatuses(c)[i], c.enabledSourceNames).enabled
            <==> STATUS_ORDER[i] in EnabledSources(c)
  {
    LowerName(STATUS_ORDER[i]);
    EnabledSourcesMember(c, STATUS_ORDER[i]);
  }
}
