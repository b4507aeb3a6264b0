/** The list transformations of lib/queries.py: legacy query conversion, the SpecterOps prebuilt
    filter, and the numbered upload loop of `import_queries`. */
module Queries {
  import opened Wrappers
  import Json
  import Text
  import Lists
  import Config
  import Utils
  import BhUtils

  /** A field of a legacy query as the JSON file gives it: absent, an explicit null, or a string. */
  datatype Field = Absent | Null | Str(text: string) {
    /** Python's `query.get(key, default)`: the default when the key is absent, and `None` (here
        `Option.None`) when its value is an explicit null. */
    function Get(default: string): (v: Option<string>)
      ensures v.None? <==> Null?
      ensures Absent? ==> v == Some(default)
      ensures Str? ==> v == Some(text)
    {
      match this
      case Absent => Some(default)
      case Null => None
      case Str(s) => Some(s)
    }
  }

  /** An element of `queryList`: an explicit null, or an object whose `query` field is read. */
  datatype ListEntry = NullEntry | Entry(query: Field)

  /** A query of the legacy format. `queryList` is `None` when the key is absent or null; both are
      falsy, so the source treats them alike. */
  datatype LegacyQuery = LegacyQuery(name: Field, category: Field, query: Field, queryList: Option<seq<ListEntry>>)

  /** A query in the format of `/api/v2/saved-queries`. */
  datatype SavedQuery = SavedQuery(name: string, query: string) {
    /** The dictionary `convert_legacy_queries` builds. */
    function ToJson(): (j: Json.Json)
      ensures j.JObj? && j.fields.Keys == {"name", "query"}
      ensures j.fields["name"] == Json.JStr(name) && j.fields["query"] == Json.JStr(query)
    {
      Json.JObj(map["name" := Json.JStr(name), "query" := Json.JStr(query)])
    }
  }

  /** Names holding this run of 14 dashes are section separators, not queries. */
  const Separator := "--------------"

  /** A name that marks a section separator. */
  predicate IsSeparatorName(name: Field) {
    name.Str? && Text.IsInfix(Separator, name.text)
  }

  /** Reading the query text either fails with AttributeError (`None.get` on a null first
      `queryList` element) or gives what `get` returned, `None` for an explicit null. */
  datatype TextRead = NoAttribute | Read(value: Option<string>)

  /** The query text: the first `queryList` element's `query` when the list is present and
      non-empty, otherwise the top-level `query`; an absent text reads as "". */
  function QueryText(q: LegacyQuery): (t: TextRead)
    ensures q.queryList.Some? && q.queryList.value != [] ==>
      (t.NoAttribute? <==> q.queryList.value[0].NullEntry?)
      && (q.queryList.value[0].Entry? ==> t == Read(q.queryList.value[0].query.Get("")))
    ensures !(q.queryList.Some? && q.queryList.value != []) ==> t == Read(q.query.Get(""))
  {
    if q.queryList.Some? && q.queryList.value != [] then
      match q.queryList.value[0]
      case NullEntry => NoAttribute
      case Entry(f) => Read(f.Get(""))
    else Read(q.query.Get(""))
  }

  /** What one loop iteration does with a query: skip it, keep its conversion, or raise. */
  datatype Step = Skip | Keep(saved: SavedQuery) | Raise

  /** One step of the conversion. A null name raises TypeError in the separator test and a null
      first `queryList` element raises AttributeError; a separator or a query without text (absent,
      null or "") is skipped; anything else becomes "<category> - <name>" with its text, where an
      absent category reads "Unknown", a null one "None", and an absent name "Unnamed Query". */
  function ConvertOne(q: LegacyQuery): (r: Step)
    ensures r.Raise? <==> q.name.Null? || (!IsSeparatorName(q.name) && QueryText(q).NoAttribute?)
    ensures r.Skip? <==>
      !q.name.Null? && (IsSeparatorName(q.name) || (QueryText(q).Read? && !Text.Truthy(QueryText(q).value)))
    ensures r.Keep? ==>
      && r.saved.name == Config.Show(q.category.Get("Unknown")) + " - " + q.name.Get("Unnamed Query").value
      && Some(r.saved.query) == QueryText(q).value && r.saved.query != ""
  {
    match q.name.Get("")
    case None => Raise
    case Some(name) =>
      if Text.IsInfix(Separator, name) then Skip
      else
        match QueryText(q)
        case NoAttribute => Raise
        case Read(text) =>
          if !Text.Truthy(text) then Skip
          else Keep(SavedQuery(Config.Show(q.category.Get("Unknown")) + " - " + q.name.Get("Unnamed Query").value, text.value))
  }

  /** An explicit null category is rendered "None", where an absent one reads "Unknown". */
  lemma NullCategory(n: string, text: string)
    requires n == "n" && text == "q"
    ensures ConvertOne(LegacyQuery(Str(n), Null, Str(text), None)) == Keep(SavedQuery("None - n", "q"))
    ensures ConvertOne(LegacyQuery(Str(n), Absent, Str(text), None)) == Keep(SavedQuery("Unknown - n", "q"))
  {
    NotSeparator(n);
  }

  /** An explicit null name raises, where an absent one reads "Unnamed Query". */
  lemma NullName(text: string)
    requires text == "q"
    ensures ConvertOne(LegacyQuery(Null, Absent, Str(text), None)).Raise?
    ensures ConvertOne(LegacyQuery(Absent, Absent, Str(text), None)) == Keep(SavedQuery("Unknown - Unnamed Query", "q"))
  {
    NotSeparator("");
  }

  /** A null first `queryList` element raises, where one without a `query` key is skipped. */
  lemma NullListEntry(n: string)
    requires n == "n"
    ensures ConvertOne(LegacyQuery(Str(n), Absent, Absent, Some([NullEntry]))).Raise?
    ensures ConvertOne(LegacyQuery(Str(n), Absent, Absent, Some([Entry(Absent)]))).Skip?
  {
    NotSeparator(n);
  }

  /** A name shorter than the separator is not one. */
  lemma NotSeparator(n: string)
    requires |n| < |Separator|
    ensures !IsSeparatorName(Str(n))
  {
    forall i: nat ensures !Text.OccursAt(Separator, n, i) {
    }
  }

  /** What one step adds to the output; `None` for a raise. */
  function StepOut(r: Step): (out: Option<seq<SavedQuery>>)
    ensures out.None? <==> r.Raise?
    ensures r.Keep? ==> out == Some([r.saved])
    ensures r.Skip? ==> out == Some([])
  {
    match r
    case Raise => None
    case Skip => Some([])
    case Keep(saved) => Some([saved])
  }

  /** Python's exception propagation over a sequence of results: the first failure wins. */
  function Join(a: Option<seq<SavedQuery>>, b: Option<seq<SavedQuery>>): (r: Option<seq<SavedQuery>>)
    ensures r.Some? <==> a.Some? && b.Some?
    ensures r.Some? ==> r.value == a.value + b.value
  {
    if a.Some? && b.Some? then Some(a.value + b.value) else None
  }

  /** The conversion of a whole list, defined on its last element so that it reads as the loop
      runs; `None` when some query raises. */
  function ConvertedQueries(qs: seq<LegacyQuery>): Option<seq<SavedQuery>> {
    if qs == [] then Some([])
    else Join(ConvertedQueries(qs[..|qs| - 1]), StepOut(ConvertOne(qs[|qs| - 1])))
  }

  /** The conversion works element by element: converting a concatenation converts each part, so
      the output keeps the input order, and a raise in either part is a raise of the whole. */
  lemma {:induction false} ConvertedAppend(a: seq<LegacyQuery>, b: seq<LegacyQuery>)
    ensures ConvertedQueries(a + b) == Join(ConvertedQueries(a), ConvertedQueries(b))
    decreases |b|
  {
    if b == [] {
      assert a + b == a;
      if ConvertedQueries(a).Some? {
        assert ConvertedQueries(a).value + [] == ConvertedQueries(a).value;
      }
    } else {
      var b' := b[..|b| - 1];
      assert (a + b)[..|a + b| - 1] == a + b';
      assert (a + b)[|a + b| - 1] == b[|b| - 1];
      ConvertedAppend(a, b');
      var x, y, z := ConvertedQueries(a), ConvertedQueries(b'), StepOut(ConvertOne(b[|b| - 1]));
      if x.Some? && y.Some? && z.Some? {
        assert (x.value + y.value) + z.value == x.value + (y.value + z.value);
      }
    }
  }

  /** The conversion raises exactly when some query raises. */
  lemma {:induction false} ConvertedRaises(qs: seq<LegacyQuery>)
    ensures ConvertedQueries(qs).None? <==> exists i :: 0 <= i < |qs| && ConvertOne(qs[i]).Raise?
  {
    if qs != [] {
      var init := qs[..|qs| - 1];
      ConvertedRaises(init);
      if exists i :: 0 <= i < |init| && ConvertOne(init[i]).Raise? {
        var i :| 0 <= i < |init| && ConvertOne(init[i]).Raise?;
        assert qs[i] == init[i];
      }
      if exists i :: 0 <= i < |qs| && ConvertOne(qs[i]).Raise? {
        var i :| 0 <= i < |qs| && ConvertOne(qs[i]).Raise?;
        if i < |qs| - 1 {
          assert init[i] == qs[i];
        }
      }
    }
  }

  /** The output is never longer than the input. */
  lemma {:induction false} ConvertedNoLonger(qs: seq<LegacyQuery>)
    ensures ConvertedQueries(qs).Some? ==> |ConvertedQueries(qs).value| <= |qs|
  {
    if qs != [] {
      ConvertedNoLonger(qs[..|qs| - 1]);
    }
  }

  /** Without a raise, every output is the conversion of some input, and every input that is kept
      appears. */
  lemma {:induction false} ConvertedMembers(qs: seq<LegacyQuery>)
    ensures ConvertedQueries(qs).Some? ==>
      forall s :: s in ConvertedQueries(qs).value <==> exists i :: 0 <= i < |qs| && ConvertOne(qs[i]) == Keep(s)
  {
    if qs != [] && ConvertedQueries(qs).Some? {
      var init := qs[..|qs| - 1];
      ConvertedMembers(init);
      var out := ConvertedQueries(qs).value;
      var before := ConvertedQueries(init).value;
      forall s ensures s in out <==> exists i :: 0 <= i < |qs| && ConvertOne(qs[i]) == Keep(s) {
        if s in out {
          if s in before {
            var i :| 0 <= i < |init| && ConvertOne(init[i]) == Keep(s);
            assert qs[i] == init[i];
          } else {
            assert ConvertOne(qs[|qs| - 1]) == Keep(s);
          }
        }
        if exists i :: 0 <= i < |qs| && ConvertOne(qs[i]) == Keep(s) {
          var i :| 0 <= i < |qs| && ConvertOne(qs[i]) == Keep(s);
          if i < |qs| - 1 {
            assert init[i] == qs[i];
          }
        }
      }
    }
  }

  /** `convert_legacy_queries(queries)`: accumulate the kept conversions, skipping with `continue`;
      `None` when an exception leaves the loop. */
  method ConvertLegacyQueries(queries: seq<LegacyQuery>) returns (result: Option<seq<SavedQuery>>)
    ensures result == ConvertedQueries(queries)
  {
    var convertedQueries := [];
    for i := 0 to |queries|
      invariant ConvertedQueries(queries[..i]) == Some(convertedQueries)
    {
      var query := queries[i];
      assert queries[..i + 1][..i] == queries[..i];
      assert convertedQueries + [] == convertedQueries;
      var name := query.name.Get("");
      if name.None? {
        // `"--------------" in None` raises TypeError.
        RaisePropagates(queries, i + 1);
        return None;
      }
      if Text.IsInfix(Separator, name.value) {
        continue;
      }
      var queryText;
      if query.queryList.Some? && query.queryList.value != [] {
        match query.queryList.value[0]
        case NullEntry =>
          // `None.get("query", "")` raises AttributeError.
          RaisePropagates(queries, i + 1);
          return None;
        case Entry(f) =>
          queryText := f.Get("");
      } else {
        queryText := query.query.Get("");
      }
      if !Text.Truthy(queryText) {
        continue;
      }
      var convertedQuery := SavedQuery(Config.Show(query.category.Get("Unknown")) + " - " + query.name.Get("Unnamed Query").value, queryText.value);
      convertedQueries := convertedQueries + [convertedQuery];
    }
    assert queries[..|queries|] == queries;
    return Some(convertedQueries);
  }

  /** A raise in a prefix is a raise of the whole list. */
  lemma RaisePropagates(qs: seq<LegacyQuery>, n: nat)
    requires n <= |qs| && ConvertedQueries(qs[..n]).None?
    ensures ConvertedQueries(qs).None?
  {
    ConvertedAppend(qs[..n], qs[n..]);
    assert qs[..n] + qs[n..] == qs;
  }

  /** A SpecterOps library entry is imported unless its `prebuilt` field is present and truthy. */
  predicate NotPrebuilt(q: map<string, Json.Json>) {
    !("prebuilt" in q && Json.Truthy(q["prebuilt"]))
  }

  /** The comprehension of `load_specterops_queries`. */
  function FilterSpecterOps(queries: seq<map<string, Json.Json>>): (r: seq<map<string, Json.Json>>)
    ensures forall q :: q in r <==> q in queries && NotPrebuilt(q)
    ensures |r| <= |queries|
  {
    Lists.Filter(queries, NotPrebuilt)
  }

  /** Filtering keeps the library order: the filter of a concatenation is the concatenation of the
      filters, and filtering again changes nothing. */
  lemma FilterSpecterOpsOrder(a: seq<map<string, Json.Json>>, b: seq<map<string, Json.Json>>)
    ensures FilterSpecterOps(a + b) == FilterSpecterOps(a) + FilterSpecterOps(b)
    ensures FilterSpecterOps(FilterSpecterOps(a)) == FilterSpecterOps(a)
  {
    Lists.FilterAppend(a, b, NotPrebuilt);
    Lists.FilterIdempotent(a, NotPrebuilt);
  }

  const SavedQueriesEndpoint := "/api/v2/saved-queries"

  /** `import_queries(queries)`: one signed POST per query, in order, each printed with its counter.
      `clock(i)` is the time the i-th request is signed. The loop stops early only where the process
      would exit or fail (service down, no token key); then `numbered` ends with that outcome. */
  method ImportQueries(p: BhUtils.Primitives, environ: map<string, string>, probe: Option<int>,
                       clock: nat -> string, queries: seq<map<string, Json.Json>>)
    returns (numbered: seq<(nat, BhUtils.Dispatch)>)
    ensures |numbered| <= |queries|
    ensures forall i :: 0 <= i < |numbered| ==> numbered[i].0 == i
    ensures forall i :: 0 <= i < |numbered| ==>
      numbered[i].1 == BhUtils.Dispatched(p, environ, probe, clock(i), "POST", SavedQueriesEndpoint,
        Some(Config.BuildUrl(environ) + SavedQueriesEndpoint), BhUtils.PayloadBytes(p, BhUtils.Doc(Json.JObj(queries[i]))))
    ensures Utils.IsUp(probe) && Config.Get(environ, "BHE_TOKEN_KEY").Some? ==>
      && |numbered| == |queries|
      && forall i :: 0 <= i < |numbered| ==>
           && numbered[i].1.Sent?
           && numbered[i].1.request.verb == "POST"
           && numbered[i].1.request.url == Config.BuildUrl(environ) + SavedQueriesEndpoint
           && numbered[i].1.request.body == BhUtils.PayloadBytes(p, BhUtils.Doc(Json.JObj(queries[i])))
           && numbered[i].1.request.requestDate == clock(i)
    ensures !(Utils.IsUp(probe) && Config.Get(environ, "BHE_TOKEN_KEY").Some?) ==>
      numbered == if queries == [] then [] else [(0, if Utils.IsUp(probe) then BhUtils.NoKey else BhUtils.Exited)]
  {
    numbered := [];
    var count: nat := 0;
    for i := 0 to |queries|
      invariant count == i == |numbered|
      invariant forall j :: 0 <= j < |numbered| ==> numbered[j].0 == j
      invariant forall j :: 0 <= j < |numbered| ==>
        numbered[j].1 == BhUtils.Dispatched(p, environ, probe, clock(j), "POST", SavedQueriesEndpoint,
          Some(Config.BuildUrl(environ) + SavedQueriesEndpoint), BhUtils.PayloadBytes(p, BhUtils.Doc(Json.JObj(queries[j]))))
      invariant forall j :: 0 <= j < |numbered| ==>
           && numbered[j].1.Sent?
           && numbered[j].1.request.verb == "POST"
           && numbered[j].1.request.url == Config.BuildUrl(environ) + SavedQueriesEndpoint
           && numbered[j].1.request.body == BhUtils.PayloadBytes(p, BhUtils.Doc(Json.JObj(queries[j])))
           && numbered[j].1.request.requestDate == clock(j)
      invariant i > 0 ==> Utils.IsUp(probe) && Config.Get(environ, "BHE_TOKEN_KEY").Some?
    {
      var query := queries[i];
      var d := BhUtils.PassRequest(p, environ, probe, clock(count), "POST", SavedQueriesEndpoint, BhUtils.Doc(Json.JObj(query)));
      numbered := numbered + [(count, d)];
      if !d.Sent? {
        return;
      }
      count := count + 1;
    }
  }
}
