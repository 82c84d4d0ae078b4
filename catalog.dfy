/**
 * Catalog loading: the one-time default fill of `solution_type` and the
 * construction of one retrieval document per catalog entry.
 */
module Catalog {
  import opened Wrappers
  import opened Json

  const SolutionTypeKey: string := "solution_type"
  const Individual: Value := Str("individual")

  /** An entry after the default fill: `solution_type` is added as `individual` when missing. */
  function WithDefault(e: Entry): (r: Entry)
    ensures SolutionTypeKey in r
    ensures r.Keys == e.Keys + {SolutionTypeKey}
    ensures forall k :: k in e ==> r[k] == e[k]
    ensures SolutionTypeKey !in e ==> r[SolutionTypeKey] == Individual
  {
    if SolutionTypeKey in e then e else e[SolutionTypeKey := Individual]
  }

  /** Some entry lacks `solution_type`: the condition for rewriting the catalog file. */
  predicate AnyMissing(data: seq<Entry>) {
    exists i :: 0 <= i < |data| && SolutionTypeKey !in data[i]
  }

  /** The catalog after the default-fill pass. */
  function FillAll(data: seq<Entry>): (r: seq<Entry>)
    ensures |r| == |data|
    ensures !AnyMissing(r)
    ensures forall i :: 0 <= i < |data| && SolutionTypeKey in data[i] ==> r[i] == data[i]
    ensures forall i :: 0 <= i < |data| && SolutionTypeKey !in data[i] ==>
              r[i] == data[i][SolutionTypeKey := Individual]
  {
    seq(|data|, i requires 0 <= i < |data| => WithDefault(data[i]))
  }

  /**
   * The default-fill loop: every entry without `solution_type` gets
   * `individual`, and `updated` records whether any entry changed.
   */
  method FillDefaults(data: seq<Entry>) returns (filled: seq<Entry>, updated: bool)
    ensures filled == FillAll(data)
    ensures updated <==> AnyMissing(data)
  {
    filled, updated := [], false;
    for i := 0 to |data|
      invariant filled == FillAll(data[..i])
      invariant updated <==> AnyMissing(data[..i])
    {
      var entry := data[i];
      if SolutionTypeKey !in entry {
        entry := entry[SolutionTypeKey := Individual];
        updated := true;
      }
      filled := filled + [entry];
    }
    assert data[..|data|] == data;
  }

  /** Running the fill again on its own output changes nothing and does not mark the catalog dirty. */
  lemma FillIdempotent(data: seq<Entry>)
    ensures FillAll(FillAll(data)) == FillAll(data)
    ensures !AnyMissing(FillAll(data))
  {
  }

  /** A retrieval document: rendered text plus the entry as metadata. */
  datatype Document = Document(content: string, metadata: Entry)

  /** `', '.join(test_types)`: fails unless the value is a string or a list of strings. */
  function JoinTestTypes(v: Value): (r: Result<string>)
    ensures r.Ok? <==> v.Str? || (v.List? && forall i :: 0 <= i < |v.items| ==> v.items[i].Str?)
  {
    match v
    case Str(s) => Ok(Join(", ", seq(|s|, i requires 0 <= i < |s| => [s[i]])))
    case List(items) =>
      if forall i :: 0 <= i < |items| ==> items[i].Str? then
        Ok(Join(", ", seq(|items|, i requires 0 <= i < |items| => items[i].s)))
      else Err(TypeError)
    case _ => Err(TypeError)
  }

  /** The page content of an entry's document. */
  function PageContent(e: Entry): (r: Result<string>)
    ensures r.Ok? <==> JoinTestTypes(Get(e, "test_types", List([]))).Ok?
  {
    match JoinTestTypes(Get(e, "test_types", List([])))
    case Err(err) => Err(err)
    case Ok(types) =>
      Ok("\n    Name: " + ToStr(Get(e, "name", Str("")))
        + "\n    Description: " + ToStr(Get(e, "description", Str("")))
        + "\n    Test Types: " + types
        + "\n    Duration: " + ToStr(Get(e, "duration", Str("")))
        + "\n    Remote Support: " + ToStr(Get(e, "remote_testing_support", Str("")))
        + "\n    Adaptive Support: " + ToStr(Get(e, "adaptive_irt_support", Str("")))
        + "\n    ")
  }

  predicate AllRenderable(data: seq<Entry>) {
    forall i :: 0 <= i < |data| ==> PageContent(data[i]).Ok?
  }

  /** One document per entry, in catalog order, each carrying its entry as metadata. */
  method BuildDocuments(data: seq<Entry>) returns (r: Result<seq<Document>>)
    ensures r.Ok? <==> AllRenderable(data)
    ensures r.Ok? ==> |r.value| == |data|
    ensures r.Ok? ==> forall i :: 0 <= i < |data| ==>
              r.value[i] == Document(PageContent(data[i]).value, data[i])
  {
    r := RenderAll(PageContent, data);
  }

  /** The document-building loop, for a given rendering of one entry; the first failure ends it. */
  method RenderAll(render: Entry -> Result<string>, data: seq<Entry>) returns (r: Result<seq<Document>>)
    ensures r.Ok? <==> forall i :: 0 <= i < |data| ==> render(data[i]).Ok?
    ensures r.Ok? ==> |r.value| == |data|
    ensures r.Ok? ==> forall i :: 0 <= i < |data| ==> r.value[i] == Document(render(data[i]).value, data[i])
  {
    var documents: seq<Document> := [];
    for i := 0 to |data|
      invariant forall j :: 0 <= j < i ==> render(data[j]).Ok?
      invariant |documents| == i
      invariant forall j :: 0 <= j < i ==> documents[j] == Document(render(data[j]).value, data[j])
    {
      var content := render(data[i]);
      if content.Err? {
        return Err(content.error);
      }
      documents := documents + [Document(content.value, data[i])];
    }
    r := Ok(documents);
  }
}
