# wikidata-slice: manifest reading, batch conversion and SPARQL content negotiation

This project models, in Dafny, the logic that the wikidata-slice scripts
carry out themselves, as opposed to what they hand to rdflib, pyshexc,
Flask and Werkzeug:

- **The shexset manifest reader** (`Manifest`). Both `shex/shexset2rdf.py`
  and `endpoint/adhs.py` read a file named `shexset` line by line. Each line
  has its trailing whitespace stripped. It must then fully match `E\d+`.
  Accepted identifiers go into a set, so duplicates collapse. Each other
  line is printed with the message `… does not match: None` and skipped.
  `ReadManifest` is the loop. It is proved against two specification
  functions, `EntitySet` and `Complaints`, and the lemmas about those two
  state what the loop promises. `PyText` models Python's `str.isspace` and
  `str.rstrip()`.
- **The batch converter** (`Shexset2Rdf`). The script takes
  `os.path.dirname(arg) + '/'` as its working directory (`WorkDir`, built on a
  model of POSIX `dirname`). It reads `dir + 'shexset'` and calls pyshexc's
  `generate(['-nj', '-f', 'ttl', dir + E])` once for each identifier `E`.
  `generate` is a `Generator` object that only records its argument vectors.
  `Run` states the whole script: which calls are made, and what is printed.
  The set's iteration order is left open (`IsEnumeration`).
- **The SPARQL endpoint's response format** (`Endpoint`). `content_override`
  lets `format` win over `output`. `get_pref_content_type` negotiates among
  `text/html` and the two SPARQL result types, never `*/*`, and keeps
  `text/html` unless the best candidate is strictly preferred.
  `sparql_get`/`sparql_post` combine the two, and `Sparql` models them. The
  Accept header is a map from media type to quality in thousandths. Section
  5.3.1 of RFC 7231 allows at most three decimals in a qvalue, so this is
  exact. Werkzeug's `best_match` stays abstract: the caller passes in its
  answer, constrained by `IsBestMatch` to be a candidate of maximal and
  positive quality, or `None` when no candidate has positive quality.
- `LoadEntitySet` models the endpoint's own manifest read, from its fixed
  molbio directory.

Files are given as a map from path to the list of lines `readlines()` would
return. Printed output is a sequence of strings, one per `print` call.

Three points where the code behaves differently from what its documented
behaviour suggests. The model follows the code in each:

- An argument without a slash gives the working directory `/`, so the
  manifest is read from `/shexset` at the filesystem root (`WorkDirShape`).
  An argument naming a directory without a trailing slash loses that
  directory: `molbio` gives `/` and `a/molbio` gives `a/`. The arguments
  `dir/` and `dir/<name>` yield `dir/` (`WorkDirOfEntry`). Doubled slashes
  collapse too: `a//b` also gives `a/`.
- With an empty Accept header, `best_match` has nothing to return and
  answers `None`. In `get_pref_content_type`,
  `request.accept_mimetypes[None]` then raises a `TypeError`
  (`EmptyAcceptFails`, `Response.InternalError`) rather than an HTML
  answer. Whether such a request ever reaches the handler depends on the
  `@produces` check of `endpoint/adhs.py` lines 82 and 95, which is not
  part of this model.
- The diagnostic for a rejected line contains the raw line, with its
  newline, followed by ` does not match: None`. The match object printed is
  always `None`.

## Model

| member | source | states |
|---|---|---|
| PyText.RStrip | shex/shexset2rdf.py:21 | `line.rstrip()` is a prefix of the line, only whitespace follows it, and it does not end in whitespace |
| PyText.RStripPadded | shex/shexset2rdf.py:21 | text that does not end in whitespace, followed by any whitespace, strips back to exactly that text |
| PyText.RStripIdempotent | shex/shexset2rdf.py:21 | stripping an already stripped line changes nothing |
| Manifest.IsEntityId | shex/shexset2rdf.py:15 | a string the pattern `E\d+$` fully matches is left unchanged by `rstrip()` |
| Manifest.Accepts | shex/shexset2rdf.py:21 | an accepted raw line starts with `E` and has at least two characters: leading whitespace is never stripped |
| Manifest.Complaint | shex/shexset2rdf.py:25 | the diagnostic is the raw line, unstripped, followed by ` does not match: None` |
| Manifest.ReadManifest | shex/shexset2rdf.py:17-25 | the loop yields exactly the identifier set `EntitySet(lines)` and the diagnostics `Complaints(lines)`, whose properties the lemmas below state |
| Manifest.Load | shex/shexset2rdf.py:17-25 | the manifest is read from exactly `dir + "shexset"`; when that file is missing the read fails before any line is processed, otherwise it yields the set and diagnostics of its lines |
| Manifest.AcceptsIff | endpoint/adhs.py:52-58 | a raw line is accepted iff it splits into an identifier (`E` and one or more ASCII digits) followed by nothing but whitespace |
| Manifest.LeadingSpaceRejected | shex/shexset2rdf.py:21-25 | leading whitespace is not stripped, so a line starting with whitespace is rejected and yields one diagnostic |
| Manifest.PaddedIdAccepted | endpoint/adhs.py:58-60 | an identifier followed by trailing whitespace (such as its newline) is accepted, and the identifier stored is exactly the stripped line |
| Manifest.EntitySetMembers | endpoint/adhs.py:55-60 | an identifier is in the set iff it has the identifier form and at least one manifest line strips to it |
| Manifest.EntitySetAppend | endpoint/adhs.py:57-60 | the identifiers of a manifest split in two are the union of both parts' identifiers: later lines are processed whatever came before |
| Manifest.DuplicateLineCollapses | shex/shexset2rdf.py:18-23 | repeating a line already in the manifest adds no identifier |
| Manifest.IdsAndComplaintsBounded | shex/shexset2rdf.py:20-25 | distinct identifiers plus diagnostics never exceed the number of lines, since each line adds at most one of them |
| Manifest.ComplaintsAppend | endpoint/adhs.py:57-62 | the diagnostics of a manifest split in two are those of the first part followed by those of the second: a rejection never aborts the loop |
| Manifest.OneComplaintPerRejectedLine | shex/shexset2rdf.py:20-25 | a line anywhere in the manifest contributes exactly one diagnostic, `line + " does not match: None"`, when rejected and none when accepted, and the lines around it are processed unchanged |
| Manifest.NoComplaintsIffAllAccepted | endpoint/adhs.py:57-62 | nothing is printed iff every line is accepted |
| Manifest.ThreeLineManifestIds | shex/shexset2rdf.py:17-25 | the manifest `E10`, `foo`, `E20` yields the set {E10, E20} |
| Manifest.ThreeLineManifestComplaints | shex/shexset2rdf.py:17-25 | the manifest `E10`, `foo`, `E20` yields a single diagnostic, for `foo` |
| Shexset2Rdf.AfterLastSlash | shex/shexset2rdf.py:14 | the index past the last `/` of the path (0 when none): a slash precedes it and none follows |
| Shexset2Rdf.StripSlashes | shex/shexset2rdf.py:14 | `rstrip('/')`: a prefix followed only by slashes and not itself ending in one |
| Shexset2Rdf.Dirname | shex/shexset2rdf.py:14 | `dirname` is a prefix of the path, empty iff the path has no slash |
| Shexset2Rdf.WorkDir | shex/shexset2rdf.py:14 | the working directory ends in `/`, and what precedes that slash is a prefix of the argument |
| Shexset2Rdf.ManifestPath | shex/shexset2rdf.py:17 | the manifest path ends in `/shexset`, and what precedes it is a prefix of the argument |
| Shexset2Rdf.DirnameSplits | shex/shexset2rdf.py:14 | the path is its `dirname`, a run of slashes, then a last component with no slash; `dirname` is empty iff the path has no slash, and keeps trailing slashes only when it is all slashes; otherwise it does not end in a slash |
| Shexset2Rdf.WorkDirShape | shex/shexset2rdf.py:14 | the working directory always ends in `/`, and it is exactly `/` iff the argument contains no slash |
| Shexset2Rdf.WorkDirOfEntry | shex/shexset2rdf.py:14-17 | for `dir/name` or `dir/`, where `dir` does not end in a slash and `name` has none, the working directory is `dir/` and the manifest is `dir/shexset` |
| Shexset2Rdf.Generator.constructor | shex/shexset2rdf.py:2 | the stand-in for `generate` starts with no recorded call |
| Shexset2Rdf.Generator.Generate | shex/shexset2rdf.py:29 | a call to `generate` is recorded after the earlier ones, with its argument vector |
| Shexset2Rdf.ConvertAll | shex/shexset2rdf.py:27-29 | the loop visits every identifier once, in some order; for each it prints `-----processing E` and requests `generate(['-nj','-f','ttl', dir + E])`, and no other call |
| Shexset2Rdf.Run | shex/shexset2rdf.py:14-29 | the script reads `WorkDir(arg) + "shexset"`. If that file is missing it fails with no conversion. Otherwise its identifier set is `EntitySet` of the lines, one conversion is requested per identifier, and it prints the diagnostics and then the progress lines |
| Shexset2Rdf.GenerateArgs | shex/shexset2rdf.py:29 | the argument vector is `-nj -f ttl` followed by a path made of the working directory and then the identifier |
| Shexset2Rdf.GenerateArgsInjective | shex/shexset2rdf.py:29 | different identifiers yield different argument vectors |
| Shexset2Rdf.RequestsCoverIdsOnce | shex/shexset2rdf.py:27-29 | the paths handed to the converter are exactly `{dir + E : E in the set}`, one call per identifier, no two calls alike |
| Shexset2Rdf.RequestsFromAcceptedLines | shex/shexset2rdf.py:21-29 | every requested path is the working directory followed by the stripped text of an accepted manifest line |
| Shexset2Rdf.NoRequestForRejectedLine | shex/shexset2rdf.py:21-29 | no path is requested for a rejected manifest line |
| Endpoint.LoadEntitySet | endpoint/adhs.py:51-62 | without `--file` the endpoint reads `/home/ralf/wikidata/slice/shexset/molbio/shexset`, failing when it is missing, and keeps its identifier set and diagnostics |
| Endpoint.QualityOf | endpoint/adhs.py:118 | `accept_mimetypes[mt]` is the quality the header gives `mt`, and only a matched type has a positive quality |
| Endpoint.Params | endpoint/adhs.py:84-100 | the GET handler reads the query-string parameters (`request.args`) and the POST handler the form body (`request.form`) |
| Endpoint.ContentOverride | endpoint/adhs.py:106-112 | an override exists iff `format` or `output` is given; `format` wins whenever present, even alongside `output`; otherwise `output` |
| Endpoint.OverrideReadsOnlyFormatAndOutput | endpoint/adhs.py:106-112 | no parameter other than `format` and `output` affects the override |
| Endpoint.GetPrefContentType | endpoint/adhs.py:114-121 | the negotiated type is one of `text/html` and the two SPARQL result types, never `*/*`. A type other than `text/html` is chosen only when it has maximal quality strictly above `text/html`'s; on a tie or a lower quality the answer is `text/html`, and on a strictly higher quality the answer is the best match. A `None` best match fails |
| Endpoint.HtmlWinsTies | endpoint/adhs.py:116-121 | when `text/html` is accepted with positive quality at least as high as every candidate's, the answer is `text/html` whatever `best_match`'s tie-breaking |
| Endpoint.StrictFavouriteChosen | endpoint/adhs.py:116-121 | a SPARQL result type accepted strictly better than the other two candidates is the answer |
| Endpoint.EmptyAcceptFails | endpoint/adhs.py:116-118 | with an empty Accept header no content type is chosen: the lookup of `None` fails |
| Endpoint.Sparql | endpoint/adhs.py:83-104 | without `query` the answer is the form page and no query runs. With `query`, the override decides the content type when present and negotiation only when it is absent |
| Endpoint.OverrideIgnoresAccept | endpoint/adhs.py:84-88 | with `query` and an override, two requests with the same parameters get the same answer whatever their Accept headers |
| Endpoint.GetAndPostAgree | endpoint/adhs.py:83-104 | `sparql_get` on query-string parameters and `sparql_post` on the same form parameters answer alike |
| Endpoint.JsonRequested | endpoint/adhs.py:84-89 | a GET with a query, no override and `Accept: application/sparql-results+json` is answered with JSON results |

## Left out

- Manifest.IsEntityId: reads `\d` as the ASCII digits `0`-`9`. On `str` patterns Python 3's `\d` also matches the other Unicode decimal digits, such as Arabic-Indic digits.
- Reading and parsing RDF into the endpoint's graph (`endpoint/adhs.py` lines 39-49 and 64-70), graph union and `g.query`: they are rdflib's work. The per-entity `.n3` paths of lines 64-70 are not modelled.
- Flask and CORS set-up, the `/` redirect, `render_template` (modelled only as `FormPage`) and `get_response` from `adhs_response`, which is not part of this model.
- The `@produces`/`@consumes` checks from flask_negotiate: they run before the handlers, and their code is not part of this model.
- Werkzeug's parsing of the Accept header, wildcard matching and `best_match` tie-breaking: the header is a given map of effective qualities, and the best match is a given value constrained by `IsBestMatch`. Werkzeug computes qualities as floats; here they are integer thousandths. `IsBestMatch` follows Werkzeug releases whose `best_match` skips candidates of quality 0; older releases could return a candidate the header refuses with `q=0`.
- Repeated request parameters: Werkzeug's `MultiDict` returns the first value, and the parameter maps hold only that value.
- pyshexc's `generate`: what it converts and how it handles a missing schema file. The model only records the argument vectors passed to it.
- Argument parsing with argparse: the script's positional argument and the endpoint's `--file`/`--input`/`--host`/`--port`. File I/O errors other than a missing manifest; an unreadable manifest counts as missing.
- Python's set iteration order: `IsEnumeration` admits every order.
- The newline `print` appends: each printed line is one string.
- `LocalDumpFileExample.java`: Wikidata Toolkit dump processing, gzip streams and a background thread. All of it is external-library plumbing.
- Rewriting a schema's BASE directive and turning schemas into graphs through JSON-LD: neither appears in these source files.
