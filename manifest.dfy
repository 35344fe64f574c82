/** The "shexset" manifest reader shared by both scripts: every line of the
    manifest, with trailing whitespace removed, must be an entity identifier
    `E<digits>`; identifiers collect in a set, every other line is reported
    and skipped. */
module Manifest {
  import opened PyText

  /** `\d`, read as the ASCII decimal digits. */
  predicate IsDigit(c: char)
  {
    '0' <= c <= '9'
  }

  /** What `re.fullmatch(r"E\d+$", s)` accepts: `E` and one or more digits,
      nothing before and nothing after. */
  predicate IsEntityId(s: string)
    ensures IsEntityId(s) ==> RStrip(s) == s
  {
    |s| >= 2 && s[0] == 'E' && forall i :: 1 <= i < |s| ==> IsDigit(s[i])
  }

  /** A manifest line is accepted when its right-stripped text is an identifier. */
  predicate Accepts(line: string)
    ensures Accepts(line) ==> |line| >= 2 && line[0] == 'E'
  {
    IsEntityId(RStrip(line))
  }

  /** The diagnostic printed for a rejected line: the raw line (with its
      newline) formatted next to the failed match object, which is `None`. */
  function Complaint(line: string): (c: string)
    ensures |c| == |line| + 21 && c[..|line|] == line
    ensures c[|line|..] == " does not match: None"
  {
    line + " does not match: None"
  }

  /** The identifiers a manifest yields: the stripped text of every accepted line. */
  function EntitySet(lines: seq<string>): set<string>
    decreases |lines|
  {
    if lines == [] then {}
    else
      var last := lines[|lines| - 1];
      EntitySet(lines[..|lines| - 1]) + (if Accepts(last) then {RStrip(last)} else {})
  }

  /** The diagnostics a manifest yields, in line order. */
  function Complaints(lines: seq<string>): seq<string>
    decreases |lines|
  {
    if lines == [] then []
    else
      var last := lines[|lines| - 1];
      Complaints(lines[..|lines| - 1]) + (if Accepts(last) then [] else [Complaint(last)])
  }

  /** The loop over `readlines()`: strip, full-match, add to the set or
      complain and go on with the next line. */
  method ReadManifest(lines: seq<string>) returns (ids: set<string>, complaints: seq<string>)
    ensures ids == EntitySet(lines)
    ensures complaints == Complaints(lines)
  {
    ids := {};
    complaints := [];
    for i := 0 to |lines|
      invariant ids == EntitySet(lines[..i])
      invariant complaints == Complaints(lines[..i])
    {
      assert lines[..i + 1][..i] == lines[..i];
      var stripped := RStrip(lines[i]);
      if IsEntityId(stripped) {
        ids := ids + {stripped};
      } else {
        complaints := complaints + [Complaint(lines[i])];
      }
    }
    assert lines[..|lines|] == lines;
  }

  /** What reading the manifest file `dir + "shexset"` produced. */
  datatype ReadOutcome =
    | NotFound(path: string)
    | Read(ids: set<string>, complaints: seq<string>)

  /** `open(dir + 'shexset')` followed by the reader loop; `files` maps each
      readable path to the list its `readlines()` returns. A missing file is
      fatal. */
  method Load(dir: string, files: map<string, seq<string>>) returns (r: ReadOutcome)
    ensures dir + "shexset" !in files <==> r == NotFound(dir + "shexset")
    ensures dir + "shexset" in files ==>
      r == Read(EntitySet(files[dir + "shexset"]), Complaints(files[dir + "shexset"]))
  {
    var path := dir + "shexset";
    if path !in files {
      return NotFound(path);
    }
    var ids, complaints := ReadManifest(files[path]);
    r := Read(ids, complaints);
  }

  /** A raw line is accepted exactly when it splits into an identifier
      followed by nothing but whitespace (typically its newline). */
  lemma AcceptsIff(line: string)
    ensures Accepts(line) <==>
      exists k :: 0 <= k <= |line| && IsEntityId(line[..k]) && AllSpace(line[k..])
  {
    if Accepts(line) {
      var k := |RStrip(line)|;
      assert line[..k] == RStrip(line);
    }
    if exists k :: 0 <= k <= |line| && IsEntityId(line[..k]) && AllSpace(line[k..]) {
      var k :| 0 <= k <= |line| && IsEntityId(line[..k]) && AllSpace(line[k..]);
      RStripPadded(line[..k], line[k..]);
      assert line[..k] + line[k..] == line;
    }
  }

  /** Leading whitespace is not stripped, so a line that starts with it is rejected. */
  lemma LeadingSpaceRejected(line: string)
    requires |line| > 0 && IsSpace(line[0])
    ensures !Accepts(line)
    ensures Complaints([line]) == [Complaint(line)]
  {
  }

  /** An identifier followed by any trailing whitespace (a newline, a carriage
      return, blanks) is accepted and yields exactly that identifier. */
  lemma PaddedIdAccepted(e: string, w: string)
    requires IsEntityId(e) && AllSpace(w)
    ensures Accepts(e + w) && RStrip(e + w) == e
    ensures EntitySet([e + w]) == {e}
  {
    RStripPadded(e, w);
  }

  /** Each line contributes its own diagnostic, independently of the lines
      around it: a rejected line never stops the lines after it. */
  lemma {:induction false} ComplaintsAppend(a: seq<string>, b: seq<string>)
    ensures Complaints(a + b) == Complaints(a) + Complaints(b)
    decreases |b|
  {
    if b == [] {
      assert a + b == a;
    } else {
      var b' := b[..|b| - 1];
      assert (a + b)[..|a + b| - 1] == a + b';
      ComplaintsAppend(a, b');
    }
  }

  /** The diagnostics of a manifest are one per rejected line: a line in the
      middle of the manifest yields one complaint when rejected and none when
      accepted, and everything before and after is processed all the same. */
  lemma OneComplaintPerRejectedLine(before: seq<string>, line: string, after: seq<string>)
    ensures Complaints(before + [line] + after) ==
      Complaints(before) + (if Accepts(line) then [] else [Complaint(line)]) + Complaints(after)
  {
    ComplaintsAppend(before + [line], after);
    ComplaintsAppend(before, [line]);
    assert [line][..0] == [];
  }

  /** No diagnostic is printed exactly when every line is accepted. */
  lemma {:induction false} NoComplaintsIffAllAccepted(lines: seq<string>)
    ensures Complaints(lines) == [] <==> forall i :: 0 <= i < |lines| ==> Accepts(lines[i])
    decreases |lines|
  {
    if lines != [] {
      var init := lines[..|lines| - 1];
      NoComplaintsIffAllAccepted(init);
      assert forall i :: 0 <= i < |init| ==> init[i] == lines[i];
    }
  }

  /** An identifier is in the set exactly when some line strips to it and
      it has the identifier form. */
  lemma {:induction false} EntitySetMembers(lines: seq<string>, e: string)
    ensures e in EntitySet(lines) <==>
      IsEntityId(e) && exists i :: 0 <= i < |lines| && RStrip(lines[i]) == e
    decreases |lines|
  {
    if lines != [] {
      var init := lines[..|lines| - 1];
      EntitySetMembers(init, e);
      assert forall i :: 0 <= i < |init| ==> init[i] == lines[i];
      if e in EntitySet(lines) && e !in EntitySet(init) {
        assert RStrip(lines[|lines| - 1]) == e;
      }
    }
  }

  /** The identifiers of two manifest fragments are the union of theirs. */
  lemma {:induction false} EntitySetAppend(a: seq<string>, b: seq<string>)
    ensures EntitySet(a + b) == EntitySet(a) + EntitySet(b)
    decreases |b|
  {
    if b == [] {
      assert a + b == a;
    } else {
      var b' := b[..|b| - 1];
      assert (a + b)[..|a + b| - 1] == a + b';
      EntitySetAppend(a, b');
    }
  }

  /** A repeated line adds nothing: duplicates collapse to one set element. */
  lemma DuplicateLineCollapses(lines: seq<string>, line: string)
    requires line in lines
    ensures EntitySet(lines + [line]) == EntitySet(lines)
  {
    var i :| 0 <= i < |lines| && lines[i] == line;
    EntitySetMembers(lines, RStrip(line));
    assert (lines + [line])[..|lines|] == lines;
  }

  /** Every identifier comes from an accepted line and every complaint from a
      rejected one, so the two together never outnumber the lines. */
  lemma {:induction false} IdsAndComplaintsBounded(lines: seq<string>)
    ensures |EntitySet(lines)| + |Complaints(lines)| <= |lines|
    decreases |lines|
  {
    if lines != [] {
      var init := lines[..|lines| - 1];
      var last := lines[|lines| - 1];
      assert lines == init + [last];
      IdsAndComplaintsBounded(init);
      if Accepts(last) {
        assert |EntitySet(init) + {RStrip(last)}| <= |EntitySet(init)| + 1;
      }
    }
  }

  /** The manifest `E10`, `foo`, `E20` (each read with its newline) yields
      the identifiers E10 and E20 ... */
  lemma ThreeLineManifestIds()
    ensures EntitySet(["E10\n", "foo\n", "E20\n"]) == {"E10", "E20"}
  {
    var e10, foo, e20 := "E10\n", "foo\n", "E20\n";
    assert e10 == "E10" + "\n" && foo == "foo" + "\n" && e20 == "E20" + "\n";
    PaddedIdAccepted("E10", "\n");
    PaddedIdAccepted("E20", "\n");
    FooRejected();
    var lines := [e10, foo, e20];
    assert lines[..2][..1] == [e10] && lines[..2] == [e10, foo];
    assert [e10][..0] == [];
    assert EntitySet([e10]) == {"E10"};
    assert EntitySet([e10, foo]) == {"E10"};
    assert EntitySet(lines) == {"E10"} + {"E20"};
  }

  /** ... and one diagnostic, for `foo`. */
  lemma ThreeLineManifestComplaints()
    ensures Complaints(["E10\n", "foo\n", "E20\n"]) == [Complaint("foo\n")]
  {
    var e10, foo, e20 := "E10\n", "foo\n", "E20\n";
    assert e10 == "E10" + "\n" && e20 == "E20" + "\n";
    PaddedIdAccepted("E10", "\n");
    PaddedIdAccepted("E20", "\n");
    FooRejected();
    var lines := [e10, foo, e20];
    assert lines[..2][..1] == [e10] && lines[..2] == [e10, foo];
    assert [e10][..0] == [];
    assert Complaints([e10]) == [];
    assert Complaints(lines) == [Complaint(foo)];
  }

  lemma FooRejected()
    ensures !Accepts("foo\n")
  {
  }
}
