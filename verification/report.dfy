/**
 * The verification report (`write_report`) as the sequence of lines it
 * writes, each without its trailing newline.
 */
module ReportWriter {
  import opened Sorting
  import opened Verification

  const Heading: seq<string> := ["ROM Verification Report", "=====================", ""]

  /** The five lines written for one bad dump. */
  function DumpLines(b: BadDump): seq<string> {
    ["Game: " + b.gameName, "ROM: " + b.name, "Expected SHA256: " + b.expectedSha256, "Actual SHA256: " + b.actualSha256, ""]
  }

  function DumpBlocks(dumps: seq<BadDump>): seq<string> {
    if dumps == [] then [] else DumpBlocks(dumps[..|dumps| - 1]) + DumpLines(dumps[|dumps| - 1])
  }

  function BadDumpSection(dumps: seq<BadDump>): seq<string> {
    ["Bad Dumps:", "---------"] + (if dumps == [] then ["None found", ""] else DumpBlocks(dumps))
  }

  /** A titled list of names, sorted, or the placeholder when there are none. */
  function NameSection(title: string, rule: string, names: seq<string>, placeholder: string): seq<string> {
    [title, rule] + (if names == [] then [placeholder] else Sort(names))
  }

  /** Everything `write_report` writes for `results`, line by line. */
  function Report(results: Results): seq<string> {
    Heading
      + BadDumpSection(results.badDumps)
      + NameSection("Missing ROMs:", "------------", results.missing, "None missing") + [""]
      + NameSection("Unknown Files:", "-------------", results.unknown, "None found") + [""]
      + NameSection("Verified ROMs:", "-------------", results.verified, "None verified")
  }

  /** Writes one titled, sorted list of names after `lines`. */
  method WriteNames(lines: seq<string>, title: string, rule: string, names: seq<string>, placeholder: string)
    returns (out: seq<string>)
    ensures out == lines + NameSection(title, rule, names, placeholder)
  {
    out := lines + [title, rule];
    if names != [] {
      var sorted := Sort(names);
      for i := 0 to |sorted|
        invariant out == lines + [title, rule] + sorted[..i]
      {
        out := out + [sorted[i]];
      }
      assert sorted[..|sorted|] == sorted;
    } else {
      out := out + [placeholder];
    }
  }

  /** Writes the bad dump section after `lines`, in the order the dumps were found. */
  method WriteBadDumps(lines: seq<string>, dumps: seq<BadDump>) returns (out: seq<string>)
    ensures out == lines + BadDumpSection(dumps)
  {
    out := lines + ["Bad Dumps:", "---------"];
    if dumps != [] {
      var start := out;
      for i := 0 to |dumps|
        invariant out == start + DumpBlocks(dumps[..i])
      {
        var rom := dumps[i];
        assert dumps[..i + 1][..i] == dumps[..i];
        out := out + ["Game: " + rom.gameName];
        out := out + ["ROM: " + rom.name];
        out := out + ["Expected SHA256: " + rom.expectedSha256];
        out := out + ["Actual SHA256: " + rom.actualSha256];
        out := out + [""];
      }
      assert dumps[..|dumps|] == dumps;
    } else {
      out := out + ["None found", ""];
    }
  }

  /** `write_report`: the sections are emitted one after another. */
  method WriteReport(results: Results) returns (lines: seq<string>)
    ensures lines == Report(results)
  {
    lines := ["ROM Verification Report"];
    lines := lines + ["====================="];
    lines := lines + [""];
    lines := WriteBadDumps(lines, results.badDumps);
    lines := WriteNames(lines, "Missing ROMs:", "------------", results.missing, "None missing");
    lines := lines + [""];
    lines := WriteNames(lines, "Unknown Files:", "-------------", results.unknown, "None found");
    lines := lines + [""];
    lines := WriteNames(lines, "Verified ROMs:", "-------------", results.verified, "None verified");
  }

  function DumpSectionLength(dumps: seq<BadDump>): nat {
    if dumps == [] then 2 else 5 * |dumps|
  }

  function NameListLength(names: seq<string>): nat {
    if names == [] then 1 else |names|
  }

  /** Line numbers of the section titles. */
  function MissingAt(results: Results): nat {
    5 + DumpSectionLength(results.badDumps)
  }

  function UnknownAt(results: Results): nat {
    MissingAt(results) + 3 + NameListLength(results.missing)
  }

  function VerifiedAt(results: Results): nat {
    UnknownAt(results) + 3 + NameListLength(results.unknown)
  }

  /** The i-th bad dump occupies lines 5i to 5i+4 of the dump blocks. */
  lemma {:induction false} DumpBlocksAt(dumps: seq<BadDump>)
    ensures |DumpBlocks(dumps)| == 5 * |dumps|
    ensures forall i :: 0 <= i < |dumps| ==> DumpBlocks(dumps)[5 * i .. 5 * i + 5] == DumpLines(dumps[i])
  {
    if dumps != [] {
      var p := dumps[..|dumps| - 1];
      DumpBlocksAt(p);
      var blocks := DumpBlocks(dumps);
      assert blocks == DumpBlocks(p) + DumpLines(dumps[|p|]);
      forall i | 0 <= i < |dumps| ensures blocks[5 * i .. 5 * i + 5] == DumpLines(dumps[i]) {
        if i < |p| {
          assert 5 * i + 5 <= 5 * |p|;
          assert blocks[5 * i .. 5 * i + 5] == DumpBlocks(p)[5 * i .. 5 * i + 5];
        } else {
          assert blocks[5 * i .. 5 * i + 5] == blocks[|DumpBlocks(p)| ..];
        }
      }
    }
  }

  lemma NameSectionLength(title: string, rule: string, names: seq<string>, placeholder: string)
    ensures |NameSection(title, rule, names, placeholder)| == 2 + NameListLength(names)
  {
    SortLength(names);
  }

  lemma BadDumpSectionLength(dumps: seq<BadDump>)
    ensures |BadDumpSection(dumps)| == 2 + DumpSectionLength(dumps)
  {
    DumpBlocksAt(dumps);
  }

  /** The report is its heading and four sections, the last three set off by blank lines. */
  lemma ReportShape(r: Results)
    ensures var h, b := Heading, BadDumpSection(r.badDumps);
      var m := NameSection("Missing ROMs:", "------------", r.missing, "None missing");
      var u := NameSection("Unknown Files:", "-------------", r.unknown, "None found");
      var v := NameSection("Verified ROMs:", "-------------", r.verified, "None verified");
      && Report(r) == h + b + m + [""] + u + [""] + v
      && |h| == 3
      && |h| + |b| == MissingAt(r)
      && |h| + |b| + |m| + 1 == UnknownAt(r)
      && UnknownAt(r) + |u| + 1 == VerifiedAt(r)
      && |v| == 2 + NameListLength(r.verified)
  {
    BadDumpSectionLength(r.badDumps);
    NameSectionLength("Missing ROMs:", "------------", r.missing, "None missing");
    NameSectionLength("Unknown Files:", "-------------", r.unknown, "None found");
    NameSectionLength("Verified ROMs:", "-------------", r.verified, "None verified");
  }

  /** Where each part of the report lies. */
  lemma ReportParts(r: Results)
    ensures var lines := Report(r);
      && |lines| == VerifiedAt(r) + 2 + NameListLength(r.verified)
      && lines[..3] == Heading
      && lines[3 .. MissingAt(r)] == BadDumpSection(r.badDumps)
      && lines[MissingAt(r) .. UnknownAt(r) - 1] == NameSection("Missing ROMs:", "------------", r.missing, "None missing")
      && lines[UnknownAt(r) - 1] == ""
      && lines[UnknownAt(r) .. VerifiedAt(r) - 1] == NameSection("Unknown Files:", "-------------", r.unknown, "None found")
      && lines[VerifiedAt(r) - 1] == ""
      && lines[VerifiedAt(r) ..] == NameSection("Verified ROMs:", "-------------", r.verified, "None verified")
  {
    ReportShape(r);
    Concatenation(Heading, BadDumpSection(r.badDumps),
      NameSection("Missing ROMs:", "------------", r.missing, "None missing"),
      NameSection("Unknown Files:", "-------------", r.unknown, "None found"),
      NameSection("Verified ROMs:", "-------------", r.verified, "None verified"));
  }

  /** Slicing the report's shape back into its parts. */
  lemma Concatenation(h: seq<string>, b: seq<string>, m: seq<string>, u: seq<string>, v: seq<string>)
    ensures var lines := h + b + m + [""] + u + [""] + v;
      var ms, us := |h| + |b|, |h| + |b| + |m| + 1;
      var vs := us + |u| + 1;
      && |lines| == vs + |v|
      && lines[..|h|] == h
      && lines[|h| .. ms] == b
      && lines[ms .. us - 1] == m
      && lines[us - 1] == ""
      && lines[us .. vs - 1] == u
      && lines[vs - 1] == ""
      && lines[vs ..] == v
  {
  }

  /**
   * The report's sections come in the order Bad Dumps, Missing ROMs,
   * Unknown Files, Verified ROMs, after the heading and set off by blank
   * lines.
   */
  lemma ReportSectionOrder(r: Results)
    ensures var lines := Report(r);
      && 3 < MissingAt(r) < UnknownAt(r) < VerifiedAt(r) < |lines|
      && |lines| == VerifiedAt(r) + 2 + NameListLength(r.verified)
      && lines[..3] == ["ROM Verification Report", "=====================", ""]
      && lines[3] == "Bad Dumps:"
      && lines[MissingAt(r) - 1] == "" && lines[MissingAt(r)] == "Missing ROMs:"
      && lines[UnknownAt(r) - 1] == "" && lines[UnknownAt(r)] == "Unknown Files:"
      && lines[VerifiedAt(r) - 1] == "" && lines[VerifiedAt(r)] == "Verified ROMs:"
  {
    ReportParts(r);
    ReportBadDumps(r);
    var lines := Report(r);
    assert lines[3] == lines[3 .. MissingAt(r)][0];
    var d := r.badDumps;
    if d == [] {
      assert lines[MissingAt(r) - 1] == lines[4 .. MissingAt(r)][2];
    } else {
      var i := |d| - 1;
      assert lines[MissingAt(r) - 1] == lines[5 + 5 * i .. 10 + 5 * i][4];
      assert DumpLines(d[i])[4] == "";
    }
    assert lines[MissingAt(r)] == lines[MissingAt(r) .. UnknownAt(r) - 1][0];
    assert lines[UnknownAt(r)] == lines[UnknownAt(r) .. VerifiedAt(r) - 1][0];
    assert lines[VerifiedAt(r)] == lines[VerifiedAt(r) ..][0];
  }

  /** The Missing ROMs section lists the missing names sorted, or "None missing". */
  lemma ReportMissingList(r: Results)
    ensures var lines := Report(r);
      && UnknownAt(r) <= |lines|
      && lines[MissingAt(r) + 2 .. UnknownAt(r) - 1] == (if r.missing == [] then ["None missing"] else Sort(r.missing))
  {
    ReportParts(r);
    NameSectionAt(Report(r), MissingAt(r), "Missing ROMs:", "------------", r.missing, "None missing");
  }

  /** The Unknown Files section lists the unknown names sorted, or "None found". */
  lemma ReportUnknownList(r: Results)
    ensures var lines := Report(r);
      && VerifiedAt(r) <= |lines|
      && lines[UnknownAt(r) + 2 .. VerifiedAt(r) - 1] == (if r.unknown == [] then ["None found"] else Sort(r.unknown))
  {
    ReportParts(r);
    NameSectionAt(Report(r), UnknownAt(r), "Unknown Files:", "-------------", r.unknown, "None found");
  }

  /** The Verified ROMs section, last in the report, lists the verified names sorted, or "None verified". */
  lemma ReportVerifiedList(r: Results)
    ensures var lines := Report(r);
      && VerifiedAt(r) + 2 <= |lines|
      && lines[VerifiedAt(r) + 2 ..] == (if r.verified == [] then ["None verified"] else Sort(r.verified))
  {
    ReportParts(r);
    var lines := Report(r);
    NameSectionAt(lines, VerifiedAt(r), "Verified ROMs:", "-------------", r.verified, "None verified");
    assert lines[VerifiedAt(r) + 2 ..] == lines[VerifiedAt(r) + 2 .. VerifiedAt(r) + 2 + NameListLength(r.verified)];
  }

  /** The title and the listed names of a name section found at line `start`. */
  lemma NameSectionAt(lines: seq<string>, start: nat, title: string, rule: string, names: seq<string>, placeholder: string)
    requires start + 2 + NameListLength(names) <= |lines|
    requires lines[start .. start + 2 + NameListLength(names)] == NameSection(title, rule, names, placeholder)
    ensures lines[start] == title
    ensures lines[start + 2 .. start + 2 + NameListLength(names)] == (if names == [] then [placeholder] else Sort(names))
  {
    var section := lines[start .. start + 2 + NameListLength(names)];
    assert lines[start] == section[0];
    assert lines[start + 2 .. start + 2 + NameListLength(names)] == section[2..];
  }

  /** Where the dumps lie in any text that holds the bad dump section from line `start` on. */
  lemma BadDumpSectionAt(lines: seq<string>, start: nat, dumps: seq<BadDump>)
    requires start + 2 + DumpSectionLength(dumps) <= |lines|
    requires lines[start .. start + 2 + DumpSectionLength(dumps)] == BadDumpSection(dumps)
    ensures dumps == [] ==> lines[start + 1 .. start + 4] == ["---------", "None found", ""]
    ensures forall i :: 0 <= i < |dumps| ==> lines[start + 2 + 5 * i .. start + 7 + 5 * i] == DumpLines(dumps[i])
  {
    DumpBlocksAt(dumps);
    BadDumpSectionLength(dumps);
    var b := BadDumpSection(dumps);
    assert forall k :: 0 <= k < |b| ==> b[k] == lines[start + k];
    forall i | 0 <= i < |dumps| ensures lines[start + 2 + 5 * i .. start + 7 + 5 * i] == DumpLines(dumps[i]) {
      assert b[2..] == DumpBlocks(dumps) && |b| == 2 + 5 * |dumps|;
      assert lines[start + 2 + 5 * i .. start + 7 + 5 * i] == b[2 + 5 * i .. 7 + 5 * i];
      assert b[2 + 5 * i .. 7 + 5 * i] == DumpBlocks(dumps)[5 * i .. 5 * i + 5];
    }
  }

  /**
   * The bad dump section: five lines per dump, in the order the dumps were
   * found (game, ROM, expected and actual digest, blank), or "None found".
   */
  lemma ReportBadDumps(r: Results)
    ensures var lines := Report(r);
      && |lines| > MissingAt(r)
      && (r.badDumps == [] ==> lines[4 .. MissingAt(r)] == ["---------", "None found", ""])
      && forall i :: 0 <= i < |r.badDumps| ==> lines[5 + 5 * i .. 10 + 5 * i] == DumpLines(r.badDumps[i])
  {
    ReportParts(r);
    BadDumpSectionAt(Report(r), 3, r.badDumps);
  }

  /**
   * Sorting at presentation time: two results with the same bad dumps and
   * the same missing, unknown and verified names, in any order, give the
   * same report.
   */
  lemma ReportIgnoresListOrder(r1: Results, r2: Results)
    requires r1.badDumps == r2.badDumps
    requires multiset(r1.missing) == multiset(r2.missing)
    requires multiset(r1.unknown) == multiset(r2.unknown)
    requires multiset(r1.verified) == multiset(r2.verified)
    ensures Report(r1) == Report(r2)
  {
    SortIgnoresOrder(r1.missing, r2.missing);
    SortIgnoresOrder(r1.unknown, r2.unknown);
    SortIgnoresOrder(r1.verified, r2.verified);
    assert r1.missing == [] <==> r2.missing == [] by {
      assert |r1.missing| == |multiset(r1.missing)| && |r2.missing| == |multiset(r2.missing)|;
    }
    assert r1.unknown == [] <==> r2.unknown == [] by {
      assert |r1.unknown| == |multiset(r1.unknown)| && |r2.unknown| == |multiset(r2.unknown)|;
    }
    assert r1.verified == [] <==> r2.verified == [] by {
      assert |r1.verified| == |multiset(r1.verified)| && |r2.verified| == |multiset(r2.verified)|;
    }
  }
}
