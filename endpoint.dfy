/** The SPARQL endpoint's own decisions: which entity identifiers it loads
    when started without `--file`, and which content type a `/sparql`
    request is answered in. Graph loading and query evaluation belong to
    rdflib and are not part of this model. */
module Endpoint {
  import opened Manifest

  datatype Option<T> = None | Some(value: T)

  /** The directory the endpoint reads `shexset` from when no `--file` is given. */
  const MolbioDir := "/home/ralf/wikidata/slice/shexset/molbio/"

  const AnyType := "*/*"
  const TextHtml := "text/html"
  const SparqlJson := "application/sparql-results+json"
  const SparqlXml := "application/sparql-results+xml"

  /** `_FORMATS`, the media types the `/sparql` routes declare. */
  const Formats: seq<string> := [AnyType, TextHtml, SparqlJson, SparqlXml]

  /** `_FORMATS[1:]`, the media types negotiation chooses among. */
  const Candidates: seq<string> := Formats[1..]

  /** A qvalue in thousandths: section 5.3.1 of RFC 7231 allows at most
      three decimals between 0 and 1. */
  type Quality = q: int | 0 <= q <= 1000

  /** The Accept header as Werkzeug evaluates it: for each media type the
      header matches (directly or through a wildcard), the quality it gives
      that type. A media type missing from the map is not matched. */
  type Accept = map<string, Quality>

  /** `request.accept_mimetypes[mt]`: 0 for a media type the header does not match. */
  function QualityOf(accept: Accept, mt: string): (q: Quality)
    ensures q > 0 ==> mt in accept
    ensures mt in accept ==> q == accept[mt]
  {
    if mt in accept then accept[mt] else 0
  }

  /** What Werkzeug's `best_match(candidates)` may answer, kept abstract:
      either a matched candidate of maximal, positive quality, or `None`, which it
      answers only when no candidate has a positive quality. How it breaks
      ties is left open. */
  predicate IsBestMatch(accept: Accept, candidates: seq<string>, best: Option<string>)
  {
    match best
    case Some(b) =>
      b in candidates && b in accept && QualityOf(accept, b) > 0
      && forall c :: c in candidates ==> QualityOf(accept, c) <= QualityOf(accept, b)
    case None =>
      forall c :: c in candidates ==> QualityOf(accept, c) == 0
  }

  /** Lines 51-62 of the endpoint: without `--file`, the identifiers come
      from the manifest in the fixed molbio directory. */
  method LoadEntitySet(files: map<string, seq<string>>) returns (r: ReadOutcome)
    ensures MolbioDir + "shexset" !in files ==> r == NotFound(MolbioDir + "shexset")
    ensures MolbioDir + "shexset" in files ==>
      r.Read? && r.ids == EntitySet(files[MolbioDir + "shexset"])
      && r.complaints == Complaints(files[MolbioDir + "shexset"])
  {
    r := Load(MolbioDir, files);
  }

  /** `content_override`: an explicit `format` parameter, else an explicit
      `output` parameter, else nothing. */
  function ContentOverride(params: map<string, string>): (r: Option<string>)
    ensures r.Some? <==> "format" in params || "output" in params
    ensures "format" in params ==> r.value == params["format"]
    ensures "format" !in params && "output" in params ==> r.value == params["output"]
  {
    if "format" in params then Some(params["format"])
    else if "output" in params then Some(params["output"])
    else None
  }

  /** Only the `format` and `output` parameters decide the override. */
  lemma OverrideReadsOnlyFormatAndOutput(p: map<string, string>, q: map<string, string>)
    requires "format" in p <==> "format" in q
    requires "format" in p ==> p["format"] == q["format"]
    requires "output" in p <==> "output" in q
    requires "output" in p ==> p["output"] == q["output"]
    ensures ContentOverride(p) == ContentOverride(q)
  {
  }

  /** Outcome of `get_pref_content_type`. `best_match` answers `None` when
      no candidate qualifies, and indexing `accept_mimetypes` by `None`
      raises a `TypeError`. */
  datatype Negotiation = Chosen(contentType: string) | NoneIndexError

  /** `get_pref_content_type`: take the best of html, json and xml results
      (never the wildcard type), but keep `text/html` unless the best is strictly
      preferred to it. */
  function GetPrefContentType(accept: Accept, best: Option<string>): (r: Negotiation)
    requires IsBestMatch(accept, Candidates, best)
    ensures r.Chosen? <==> best.Some?
    ensures r.Chosen? ==> r.contentType in Candidates && r.contentType != AnyType
    ensures r.Chosen? && r.contentType != TextHtml ==>
      QualityOf(accept, TextHtml) < QualityOf(accept, r.contentType)
      && forall c :: c in Candidates ==> QualityOf(accept, c) <= QualityOf(accept, r.contentType)
    ensures best.Some? && QualityOf(accept, best.value) <= QualityOf(accept, TextHtml) ==>
      r == Chosen(TextHtml)
    ensures best.Some? && QualityOf(accept, TextHtml) < QualityOf(accept, best.value) ==>
      r == Chosen(best.value)
  {
    match best
    case None => NoneIndexError
    case Some(b) =>
      if QualityOf(accept, b) > QualityOf(accept, TextHtml) then Chosen(b) else Chosen(TextHtml)
  }

  /** When `text/html` is accepted at least as well as every other
      candidate, the answer is HTML, however `best_match` breaks the tie. */
  lemma HtmlWinsTies(accept: Accept, best: Option<string>)
    requires IsBestMatch(accept, Candidates, best)
    requires QualityOf(accept, TextHtml) > 0
    requires forall c :: c in Candidates ==> QualityOf(accept, c) <= QualityOf(accept, TextHtml)
    ensures GetPrefContentType(accept, best) == Chosen(TextHtml)
  {
  }

  /** A result format accepted strictly better than both other candidates
      is the answer, whatever `best_match` does on ties elsewhere. */
  lemma StrictFavouriteChosen(accept: Accept, best: Option<string>, t: string)
    requires IsBestMatch(accept, Candidates, best)
    requires t == SparqlJson || t == SparqlXml
    requires forall c :: c in Candidates && c != t ==> QualityOf(accept, c) < QualityOf(accept, t)
    ensures GetPrefContentType(accept, best) == Chosen(t)
  {
    assert TextHtml in Candidates && t in Candidates;
    assert QualityOf(accept, t) > 0;
    match best
    case Some(b) =>
      assert b == t;
  }

  /** With nothing in the Accept header, `best_match` has no candidate to
      return and the lookup of `None` fails: no content type is chosen. */
  lemma EmptyAcceptFails(best: Option<string>)
    requires IsBestMatch(map[], Candidates, best)
    ensures GetPrefContentType(map[], best) == NoneIndexError
  {
  }

  datatype HttpMethod = Get | Post

  /** What the handlers read from a request: the query-string parameters
      (`request.args`), the form body (`request.form`) and the Accept header. */
  datatype Request = Request(verb: HttpMethod, args: map<string, string>, form: map<string, string>, accept: Accept)

  /** The parameters a handler reads: `request.args` for GET, `request.form` for POST. */
  function Params(req: Request): (r: map<string, string>)
    ensures req.verb == Get ==> r == req.args
    ensures req.verb == Post ==> r == req.form
  {
    if req.verb == Get then req.args else req.form
  }

  /** What a `/sparql` request is answered with: the query form, the results
      of the query in a content type, or the failure of negotiation. */
  datatype Response =
    | FormPage
    | Results(query: string, contentType: string)
    | InternalError

  /** `sparql_get` and `sparql_post`: without a `query` parameter the form
      page; otherwise the query's results in the overriding content type if
      one is given, else in the negotiated one. */
  function Sparql(req: Request, best: Option<string>): (resp: Response)
    requires IsBestMatch(req.accept, Candidates, best)
    ensures resp == FormPage <==> "query" !in Params(req)
    ensures resp.Results? ==> resp.query == Params(req)["query"]
    ensures resp.Results? && ContentOverride(Params(req)).Some? ==>
      resp.contentType == ContentOverride(Params(req)).value
    ensures resp.Results? && ContentOverride(Params(req)).None? ==>
      GetPrefContentType(req.accept, best) == Chosen(resp.contentType)
    ensures resp == InternalError ==>
      ContentOverride(Params(req)).None? && GetPrefContentType(req.accept, best) == NoneIndexError
  {
    var params := Params(req);
    if "query" !in params then FormPage
    else
      match ContentOverride(params)
      case Some(ct) => Results(params["query"], ct)
      case None =>
        match GetPrefContentType(req.accept, best)
        case Chosen(ct) => Results(params["query"], ct)
        case NoneIndexError => InternalError
  }

  /** An explicit override settles the content type: two requests with the
      same parameters and a query get the same answer whatever their Accept
      headers say, so negotiation plays no part. */
  lemma OverrideIgnoresAccept(r1: Request, b1: Option<string>, r2: Request, b2: Option<string>)
    requires IsBestMatch(r1.accept, Candidates, b1) && IsBestMatch(r2.accept, Candidates, b2)
    requires Params(r1) == Params(r2)
    requires "query" in Params(r1) && ContentOverride(Params(r1)).Some?
    ensures Sparql(r1, b1) == Sparql(r2, b2) == Results(Params(r1)["query"], ContentOverride(Params(r1)).value)
  {
  }

  /** The GET and the POST handler agree when the query string of the one
      carries what the form of the other carries. */
  lemma GetAndPostAgree(p: map<string, string>, other: map<string, string>, accept: Accept, best: Option<string>)
    requires IsBestMatch(accept, Candidates, best)
    ensures Sparql(Request(Get, p, other, accept), best) == Sparql(Request(Post, other, p, accept), best)
  {
  }

  /** A GET with a query, no override and an Accept header asking only for
      JSON results is answered with JSON results. */
  lemma JsonRequested(q: string, best: Option<string>)
    requires IsBestMatch(map[SparqlJson := 1000], Candidates, best)
    ensures Sparql(Request(Get, map["query" := q], map[], map[SparqlJson := 1000]), best)
      == Results(q, SparqlJson)
  {
    var accept: Accept := map[SparqlJson := 1000];
    assert ContentOverride(map["query" := q]) == None;
    forall c | c in Candidates && c != SparqlJson
      ensures QualityOf(accept, c) < QualityOf(accept, SparqlJson)
    {
    }
    StrictFavouriteChosen(accept, best, SparqlJson);
  }
}
