/** The batch converter script: from its one argument it derives a working
    directory, reads the manifest `shexset` there and asks pyshexc's
    `generate` to convert the schema file of every listed entity. */
module Shexset2Rdf {
  import opened PyText
  import opened Manifest

  /** `p.rfind('/') + 1`: the index just past the last slash, 0 when `p` has none. */
  function AfterLastSlash(p: string): (i: nat)
    ensures i <= |p|
    ensures i > 0 ==> p[i - 1] == '/'
    ensures forall k :: i <= k < |p| ==> p[k] != '/'
    decreases |p|
  {
    if p == [] then 0
    else if p[|p| - 1] == '/' then |p|
    else AfterLastSlash(p[..|p| - 1])
  }

  predicate AllSlashes(s: string)
  {
    forall k :: 0 <= k < |s| ==> s[k] == '/'
  }

  /** `s.rstrip('/')`. */
  function StripSlashes(s: string): (r: string)
    ensures r <= s
    ensures AllSlashes(s[|r|..])
    ensures r == [] || r[|r| - 1] != '/'
    decreases |s|
  {
    if |s| > 0 && s[|s| - 1] == '/' then StripSlashes(s[..|s| - 1]) else s
  }

  /** `os.path.dirname(p)` on POSIX: everything up to the last slash, with
      the trailing slashes removed unless nothing but slashes is left. */
  function Dirname(p: string): (d: string)
    ensures d <= p
    ensures d == [] <==> '/' !in p
  {
    var head := p[..AfterLastSlash(p)];
    if head != [] && !AllSlashes(head) then StripSlashes(head) else head
  }

  /** `os.path.basename(p)`: what follows the last slash. */
  function Basename(p: string): string
  {
    p[AfterLastSlash(p)..]
  }

  /** The working directory, `os.path.dirname(args.dir) + '/'`. */
  function WorkDir(arg: string): (w: string)
    ensures |w| > 0 && w[|w| - 1] == '/'
    ensures w[..|w| - 1] <= arg
  {
    Dirname(arg) + "/"
  }

  /** The manifest read by the script, `dir + 'shexset'`. */
  function ManifestPath(arg: string): (m: string)
    ensures |m| >= 8 && m[|m| - 8..] == "/shexset"
    ensures m[..|m| - 8] <= arg
  {
    WorkDir(arg) + "shexset"
  }

  /** `p` is its directory part, then a run of slashes, then its last
      component, which holds no slash; the directory part is empty exactly
      when `p` has no slash, and ends in a slash only when it is all slashes. */
  lemma DirnameSplits(p: string)
    ensures var d, b := Dirname(p), Basename(p);
      |d| + |b| <= |p| && p[..|d|] == d && p[|p| - |b|..] == b
      && AllSlashes(p[|d|..|p| - |b|])
      && '/' !in b
      && (d == [] <==> '/' !in p)
      && (AllSlashes(d) <==> |d| + |b| == |p|)
      && (AllSlashes(d) || d[|d| - 1] != '/')
  {
  }

  /** The working directory always ends in a slash, and it is just `/`
      exactly when the argument has no slash at all. */
  lemma WorkDirShape(arg: string)
    ensures var w := WorkDir(arg); |w| > 0 && w[|w| - 1] == '/'
    ensures WorkDir(arg) == "/" <==> '/' !in arg
  {
  }

  /** An argument naming an entry of a directory (or the directory followed
      by a slash) yields that directory, with one slash appended. */
  lemma WorkDirOfEntry(dir: string, name: string)
    requires dir != [] && dir[|dir| - 1] != '/'
    requires '/' !in name
    ensures WorkDir(dir + "/" + name) == dir + "/"
    ensures ManifestPath(dir + "/" + name) == dir + "/shexset"
  {
    var p := dir + "/" + name;
    assert p[|dir|] == '/';
    assert forall k :: |dir| < k < |p| ==> p[k] == name[k - |dir| - 1];
    var i := AfterLastSlash(p);
    assert i == |dir| + 1;
    var head := p[..i];
    assert head == dir + "/";
    assert !AllSlashes(head) by { assert head[|dir| - 1] == dir[|dir| - 1]; }
    var r := StripSlashes(head);
    assert r == dir;
    assert (dir + "/") + "shexset" == dir + "/shexset";
  }

  /** The argument vector handed to `generate` for one entity. */
  function GenerateArgs(dir: string, e: string): (argv: seq<string>)
    ensures |argv| == 4 && argv[..3] == ["-nj", "-f", "ttl"]
    ensures |argv[3]| >= |dir| && argv[3][..|dir|] == dir && argv[3][|dir|..] == e
  {
    ["-nj", "-f", "ttl", dir + e]
  }

  /** The `generate` calls made for the entities in the given order. */
  function Requests(dir: string, order: seq<string>): seq<seq<string>>
  {
    seq(|order|, k requires 0 <= k < |order| => GenerateArgs(dir, order[k]))
  }

  /** The progress lines printed for the entities in the given order. */
  function Progress(order: seq<string>): seq<string>
  {
    seq(|order|, k requires 0 <= k < |order| => "-----processing " + order[k])
  }

  /** The file paths in a list of `generate` argument vectors. */
  function RequestedPaths(calls: seq<seq<string>>): set<string>
  {
    set k | 0 <= k < |calls| && |calls[k]| == 4 :: calls[k][3]
  }

  /** `order` lists every element of `ids` once: the order in which the
      loop over the set happens to visit them, which Python leaves open. */
  predicate IsEnumeration(order: seq<string>, ids: set<string>)
  {
    |order| == |ids|
    && (forall e :: e in ids ==> e in order)
    && (forall k :: 0 <= k < |order| ==> order[k] in ids)
    && (forall j, k :: 0 <= j < k < |order| ==> order[j] != order[k])
  }

  /** Stands for pyshexc's `generate`, whose conversion work is not part of
      this model: it records every argument vector it is called with. */
  class Generator {
    var calls: seq<seq<string>>

    constructor ()
      ensures calls == []
    {
      calls := [];
    }

    method Generate(argv: seq<string>)
      modifies this
      ensures calls == old(calls) + [argv]
    {
      calls := calls + [argv];
    }
  }

  /** The loop `for E in Eset`: print a progress line and request one
      conversion of `dir + E`, once per identifier, in some order. */
  method ConvertAll(dir: string, ids: set<string>, gen: Generator)
    returns (order: seq<string>, progress: seq<string>)
    modifies gen
    ensures IsEnumeration(order, ids)
    ensures gen.calls == old(gen.calls) + Requests(dir, order)
    ensures progress == Progress(order)
  {
    order, progress := [], [];
    var rest := ids;
    while rest != {}
      invariant forall e :: e in ids <==> e in rest || e in order
      invariant forall e :: e in rest ==> e !in order
      invariant forall j, k :: 0 <= j < k < |order| ==> order[j] != order[k]
      invariant |order| + |rest| == |ids|
      invariant gen.calls == old(gen.calls) + Requests(dir, order)
      invariant progress == Progress(order)
      decreases |rest|
    {
      var e :| e in rest;
      progress := progress + ["-----processing " + e];
      gen.Generate(GenerateArgs(dir, e));
      assert Requests(dir, order + [e]) == Requests(dir, order) + [GenerateArgs(dir, e)];
      assert Progress(order + [e]) == Progress(order) + ["-----processing " + e];
      order := order + [e];
      rest := rest - {e};
    }
  }

  /** What one run of the script did. */
  datatype Outcome =
    | ManifestNotFound(path: string)
    | Converted(dir: string, ids: set<string>, order: seq<string>, stdout: seq<string>)

  /** The whole script: derive the working directory, read its manifest
      (fatal when missing, before any conversion), then convert every
      identifier. `stdout` is everything printed, one entry per `print`. */
  method Run(arg: string, files: map<string, seq<string>>, gen: Generator) returns (out: Outcome)
    modifies gen
    ensures ManifestPath(arg) !in files ==>
      out == ManifestNotFound(ManifestPath(arg)) && gen.calls == old(gen.calls)
    ensures ManifestPath(arg) in files ==>
      var lines := files[ManifestPath(arg)];
      out.Converted? && out.dir == WorkDir(arg) && out.ids == EntitySet(lines)
      && IsEnumeration(out.order, out.ids)
      && gen.calls == old(gen.calls) + Requests(out.dir, out.order)
      && out.stdout == Complaints(lines) + Progress(out.order)
  {
    var dir := WorkDir(arg);
    var manifest := Load(dir, files);
    match manifest
    case NotFound(path) =>
      out := ManifestNotFound(path);
    case Read(ids, complaints) =>
      var order, progress := ConvertAll(dir, ids, gen);
      out := Converted(dir, ids, order, complaints + progress);
  }

  /** Different identifiers give different paths, hence different calls. */
  lemma GenerateArgsInjective(dir: string, a: string, b: string)
    requires GenerateArgs(dir, a) == GenerateArgs(dir, b)
    ensures a == b
  {
    assert (dir + a)[|dir|..] == a;
    assert (dir + b)[|dir|..] == b;
  }

  /** The paths handed to the converter are exactly `dir + E` for the
      identifiers `E`, each requested by exactly one call. */
  lemma RequestsCoverIdsOnce(dir: string, ids: set<string>, order: seq<string>)
    requires IsEnumeration(order, ids)
    ensures RequestedPaths(Requests(dir, order)) == set e | e in ids :: dir + e
    ensures |Requests(dir, order)| == |ids|
    ensures forall j, k :: 0 <= j < k < |order| ==> Requests(dir, order)[j] != Requests(dir, order)[k]
  {
    var r := Requests(dir, order);
    forall j, k | 0 <= j < k < |order|
      ensures r[j] != r[k]
    {
      if r[j] == r[k] {
        GenerateArgsInjective(dir, order[j], order[k]);
      }
    }
    forall p | p in RequestedPaths(r)
      ensures p in set e | e in ids :: dir + e
    {
      var k :| 0 <= k < |r| && |r[k]| == 4 && r[k][3] == p;
      assert order[k] in ids;
    }
    forall e | e in ids
      ensures dir + e in RequestedPaths(r)
    {
      var k :| 0 <= k < |order| && order[k] == e;
      assert r[k][3] == dir + e;
    }
  }

  /** For a run over a given manifest, every requested path is the working
      directory followed by the stripped text of an accepted line; `i` is
      the index of such a line. */
  lemma RequestsFromAcceptedLines(dir: string, lines: seq<string>, order: seq<string>, p: string)
    returns (i: nat)
    requires IsEnumeration(order, EntitySet(lines))
    requires p in RequestedPaths(Requests(dir, order))
    ensures i < |lines| && Accepts(lines[i]) && p == dir + RStrip(lines[i])
  {
    var ids := EntitySet(lines);
    RequestsCoverIdsOnce(dir, ids, order);
    var e :| e in ids && p == dir + e;
    EntitySetMembers(lines, e);
    i :| 0 <= i < |lines| && RStrip(lines[i]) == e;
  }

  /** No path is requested for a rejected manifest line. */
  lemma NoRequestForRejectedLine(dir: string, lines: seq<string>, order: seq<string>, line: string)
    requires IsEnumeration(order, EntitySet(lines))
    requires line in lines && !Accepts(line)
    ensures dir + RStrip(line) !in RequestedPaths(Requests(dir, order))
  {
    var ids := EntitySet(lines);
    RequestsCoverIdsOnce(dir, ids, order);
    var s := RStrip(line);
    EntitySetMembers(lines, s);
    forall e | e in ids
      ensures dir + s != dir + e
    {
      assert (dir + e)[|dir|..] == e && (dir + s)[|dir|..] == s;
    }
  }
}
