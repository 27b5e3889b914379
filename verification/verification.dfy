/**
 * The classification pass (`verify_roms`): every regular file of the ROM
 * folder is verified, a bad dump, unknown, or (when hashing it fails)
 * reported and skipped; manifest names never seen are missing.
 *
 * Directory enumeration and hashing are inputs: each entry carries its
 * name, whether `is_file()` holds, and what `calculate_sha256` would give.
 */
module Verification {
  import opened Wrappers
  import opened DatIndex

  /** The lowercase hex digest of a file, or the exception hashing raised. */
  datatype HashOutcome = Digest(hex: string) | HashFailure

  /** One entry of the ROM folder, in enumeration order. */
  datatype DirEntry = DirEntry(name: string, isFile: bool, hash: HashOutcome)

  datatype BadDump = BadDump(name: string, gameName: string, expectedSha256: string, actualSha256: string)

  /** The `results` dictionary `verify_roms` returns. */
  datatype Results = Results(missing: seq<string>, badDumps: seq<BadDump>, verified: seq<string>, unknown: seq<string>)

  /**
   * The state of the scan: `found_roms`, the three lists filled during the
   * loop, and the names whose hashing failed (printed, not returned).
   */
  datatype Scan = Scan(found: set<string>, verified: seq<string>, badDumps: seq<BadDump>, unknown: seq<string>, errored: seq<string>)

  const EmptyScan := Scan({}, [], [], [], [])

  /** What one directory entry does to the scan. */
  function Step(index: RomIndex, s: Scan, e: DirEntry): Scan {
    if !e.isFile then s
    else
      var s := s.(found := s.found + {e.name});
      if e.name !in index then s.(unknown := s.unknown + [e.name])
      else
        match e.hash
        case HashFailure => s.(errored := s.errored + [e.name])
        case Digest(actual) =>
          var expected := index[e.name].sha256;
          if actual == expected then s.(verified := s.verified + [e.name])
          else s.(badDumps := s.badDumps + [BadDump(e.name, index[e.name].gameName, expected, actual)])
  }

  /** The scan after the entries have been visited in order. */
  function ScanOf(index: RomIndex, entries: seq<DirEntry>): Scan {
    if entries == [] then EmptyScan
    else Step(index, ScanOf(index, entries[..|entries| - 1]), entries[|entries| - 1])
  }

  /** Names of the regular files among the entries. */
  function FileNames(entries: seq<DirEntry>): set<string> {
    set e | e in entries && e.isFile :: e.name
  }

  /** Number of regular files among the entries. */
  function FileCount(entries: seq<DirEntry>): nat {
    if entries == [] then 0
    else FileCount(entries[..|entries| - 1]) + (if entries[|entries| - 1].isFile then 1 else 0)
  }

  function DumpNames(dumps: seq<BadDump>): set<string> {
    set b | b in dumps :: b.name
  }

  predicate Distinct(xs: seq<string>) {
    forall i, j :: 0 <= i < j < |xs| ==> xs[i] != xs[j]
  }

  /** Within a directory, regular files are told apart by their names. */
  predicate UniqueFileNames(entries: seq<DirEntry>) {
    forall e1, e2 :: e1 in entries && e2 in entries && e1.isFile && e2.isFile && e1.name == e2.name ==> e1 == e2
  }

  /** `list(s)`: the elements of a set, each once, in no particular order. */
  method ListOf(s: set<string>) returns (xs: seq<string>)
    ensures forall x :: x in xs <==> x in s
    ensures Distinct(xs)
  {
    xs := [];
    var rest := s;
    while rest != {}
      invariant rest <= s
      invariant forall x :: x in xs <==> x in s && x !in rest
      invariant Distinct(xs)
      decreases rest
    {
      var x :| x in rest;
      xs := xs + [x];
      rest := rest - {x};
    }
  }

  /**
   * `verify_roms`: no result when the DAT file cannot be turned into an
   * index; otherwise the lists of the scan, and as missing every index key
   * that is not the name of a regular file in the folder.
   */
  method VerifyRoms(dat: DatFile, entries: seq<DirEntry>) returns (r: Option<Results>)
    ensures r.None? <==> DatIndexOf(dat).Err?
    ensures r.Some? ==>
      && DatIndexOf(dat).Ok?
      && (var index := DatIndexOf(dat).value;
          var s := ScanOf(index, entries);
          && r.value.verified == s.verified
          && r.value.badDumps == s.badDumps
          && r.value.unknown == s.unknown
          && (forall n :: n in r.value.missing <==> n in index && n !in FileNames(entries))
          && Distinct(r.value.missing))
  {
    var parsed := ParseDatFile(dat);
    if parsed.Err? {
      return None;
    }
    var index := parsed.value;
    var datRoms := index.Keys;
    var foundRoms: set<string> := {};
    var verified: seq<string> := [];
    var badDumps: seq<BadDump> := [];
    var unknown: seq<string> := [];
    for i := 0 to |entries|
      invariant foundRoms == ScanOf(index, entries[..i]).found
      invariant verified == ScanOf(index, entries[..i]).verified
      invariant badDumps == ScanOf(index, entries[..i]).badDumps
      invariant unknown == ScanOf(index, entries[..i]).unknown
    {
      var entry := entries[i];
      assert entries[..i + 1][..i] == entries[..i] && entries[..i + 1][i] == entry;
      if entry.isFile {
        var romName := entry.name;
        foundRoms := foundRoms + {romName};
        if romName in index {
          match entry.hash {
            case Digest(actualSha256) =>
              var expectedSha256 := index[romName].sha256;
              if actualSha256 == expectedSha256 {
                verified := verified + [romName];
              } else {
                badDumps := badDumps + [BadDump(romName, index[romName].gameName, expectedSha256, actualSha256)];
              }
            case HashFailure =>
              // reported on the console; the file goes into no list
          }
        } else {
          unknown := unknown + [romName];
        }
      }
    }
    assert entries[..|entries|] == entries;
    ScanFound(index, entries);
    var missing := ListOf(datRoms - foundRoms);
    r := Some(Results(missing, badDumps, verified, unknown));
  }

  /** `found_roms` ends up holding exactly the names of the regular files. */
  lemma {:induction false} ScanFound(index: RomIndex, entries: seq<DirEntry>)
    ensures ScanOf(index, entries).found == FileNames(entries)
  {
    if entries != [] {
      var p := entries[..|entries| - 1];
      ScanFound(index, p);
      assert entries == p + [entries[|entries| - 1]];
    }
  }

  /** A name is in `verified` exactly when a regular file of that name is indexed and hashes to the stored digest. */
  lemma {:induction false} ScanVerified(index: RomIndex, entries: seq<DirEntry>)
    ensures forall n :: n in ScanOf(index, entries).verified <==>
      exists e :: e in entries && e.isFile && e.name == n && n in index && e.hash == Digest(index[n].sha256)
  {
    if entries != [] {
      var p := entries[..|entries| - 1];
      ScanVerified(index, p);
      assert entries == p + [entries[|entries| - 1]];
    }
  }

  /**
   * A record is in `bad_dumps` exactly when a regular, indexed file hashed
   * to a different digest; the record holds the name, the game name and the
   * expected digest from the index and the actual digest.
   */
  lemma {:induction false} ScanBadDumps(index: RomIndex, entries: seq<DirEntry>)
    ensures forall b :: b in ScanOf(index, entries).badDumps <==>
      exists e :: (
        && e in entries && e.isFile && e.name in index && e.hash.Digest?
        && e.hash.hex != index[e.name].sha256
        && b == BadDump(e.name, index[e.name].gameName, index[e.name].sha256, e.hash.hex))
  {
    if entries != [] {
      var p := entries[..|entries| - 1];
      ScanBadDumps(index, p);
      assert entries == p + [entries[|entries| - 1]];
    }
  }

  /** A name is in `unknown` exactly when it names a regular file and is not an index key. */
  lemma {:induction false} ScanUnknown(index: RomIndex, entries: seq<DirEntry>)
    ensures forall n :: n in ScanOf(index, entries).unknown <==> n in FileNames(entries) && n !in index
  {
    if entries != [] {
      var p := entries[..|entries| - 1];
      ScanUnknown(index, p);
      assert entries == p + [entries[|entries| - 1]];
    }
  }

  /** A name is reported as a hashing error exactly when a regular, indexed file of that name failed to hash. */
  lemma {:induction false} ScanErrored(index: RomIndex, entries: seq<DirEntry>)
    ensures forall n :: n in ScanOf(index, entries).errored <==>
      exists e :: e in entries && e.isFile && e.name == n && n in index && e.hash == HashFailure
  {
    if entries != [] {
      var p := entries[..|entries| - 1];
      ScanErrored(index, p);
      assert entries == p + [entries[|entries| - 1]];
    }
  }

  /**
   * Each regular file adds exactly one element across verified, bad dumps,
   * unknown and the hashing errors; other entries add none.
   */
  lemma {:induction false} ScanAccounting(index: RomIndex, entries: seq<DirEntry>)
    ensures var s := ScanOf(index, entries);
      |s.verified| + |s.badDumps| + |s.unknown| + |s.errored| == FileCount(entries)
  {
    if entries != [] {
      ScanAccounting(index, entries[..|entries| - 1]);
    }
  }

  /**
   * Missing names (index keys that name no regular file) are disjoint from
   * every name the scan classified or reported.
   */
  lemma MissingDisjoint(index: RomIndex, entries: seq<DirEntry>, n: string)
    requires n in index && n !in FileNames(entries)
    ensures var s := ScanOf(index, entries);
      n !in s.verified && n !in DumpNames(s.badDumps) && n !in s.unknown && n !in s.errored
  {
    var s := ScanOf(index, entries);
    ScanVerified(index, entries);
    ScanBadDumps(index, entries);
    ScanUnknown(index, entries);
    ScanErrored(index, entries);
  }

  /**
   * A regular, indexed file whose hashing fails is in none of verified,
   * bad dumps, unknown, nor missing: it is only reported.
   */
  lemma HashFailureExcluded(index: RomIndex, entries: seq<DirEntry>, e: DirEntry)
    requires UniqueFileNames(entries)
    requires e in entries && e.isFile && e.name in index && e.hash == HashFailure
    ensures var s := ScanOf(index, entries);
      && e.name in s.errored
      && e.name !in s.verified && e.name !in DumpNames(s.badDumps) && e.name !in s.unknown
      && e.name in s.found
  {
    var s := ScanOf(index, entries);
    ScanFound(index, entries);
    ScanVerified(index, entries);
    ScanBadDumps(index, entries);
    ScanUnknown(index, entries);
    ScanErrored(index, entries);
  }

  function Indicator(b: bool): nat {
    if b then 1 else 0
  }

  /**
   * In a directory whose regular files have distinct names, every name of a
   * regular file lands in exactly one of verified, bad dumps, unknown and
   * the hashing errors.
   */
  lemma FilePartition(index: RomIndex, entries: seq<DirEntry>, n: string)
    requires UniqueFileNames(entries) && n in FileNames(entries)
    ensures var s := ScanOf(index, entries);
      Indicator(n in s.verified) + Indicator(n in DumpNames(s.badDumps))
        + Indicator(n in s.unknown) + Indicator(n in s.errored) == 1
  {
    var s := ScanOf(index, entries);
    var e :| e in entries && e.isFile && e.name == n;
    ScanVerified(index, entries);
    ScanBadDumps(index, entries);
    ScanUnknown(index, entries);
    ScanErrored(index, entries);
    if n in index && e.hash.Digest? && e.hash.hex != index[n].sha256 {
      var b := BadDump(n, index[n].gameName, index[n].sha256, e.hash.hex);
      assert b in s.badDumps;
    }
  }

  /**
   * In a directory whose regular files have distinct names, every index key
   * lands in exactly one of verified, bad dumps, missing and the hashing
   * errors.
   */
  lemma ManifestPartition(index: RomIndex, entries: seq<DirEntry>, k: string)
    requires UniqueFileNames(entries) && k in index
    ensures var s := ScanOf(index, entries);
      Indicator(k in s.verified) + Indicator(k in DumpNames(s.badDumps))
        + Indicator(k !in FileNames(entries)) + Indicator(k in s.errored) == 1
  {
    if k in FileNames(entries) {
      FilePartition(index, entries, k);
      ScanUnknown(index, entries);
    } else {
      MissingDisjoint(index, entries, k);
    }
  }

  /** With an empty index every regular file is unknown and nothing else is recorded. */
  lemma {:induction false} EmptyIndexAllUnknown(entries: seq<DirEntry>)
    ensures var s := ScanOf(map[], entries);
      && s.verified == [] && s.badDumps == [] && s.errored == []
      && |s.unknown| == FileCount(entries)
      && forall n :: n in s.unknown <==> n in FileNames(entries)
  {
    if entries != [] {
      var p := entries[..|entries| - 1];
      EmptyIndexAllUnknown(p);
      assert entries == p + [entries[|entries| - 1]];
    }
  }

  /** The scan of two runs of entries, one after the other. */
  function Join(a: Scan, b: Scan): Scan {
    Scan(a.found + b.found, a.verified + b.verified, a.badDumps + b.badDumps, a.unknown + b.unknown, a.errored + b.errored)
  }

  /** Scanning `a + b` is scanning `a` and `b` separately and joining the results. */
  lemma {:induction false} ScanAppend(index: RomIndex, a: seq<DirEntry>, b: seq<DirEntry>)
    ensures ScanOf(index, a + b) == Join(ScanOf(index, a), ScanOf(index, b))
    decreases |b|
  {
    if b == [] {
      assert a + b == a;
    } else {
      var b' := b[..|b| - 1];
      assert (a + b)[..|a + b| - 1] == a + b';
      ScanAppend(index, a, b');
    }
  }

  /** The same classification, up to the order of each list. */
  predicate SameUpToOrder(s: Scan, t: Scan) {
    && s.found == t.found
    && multiset(s.verified) == multiset(t.verified)
    && multiset(s.badDumps) == multiset(t.badDumps)
    && multiset(s.unknown) == multiset(t.unknown)
    && multiset(s.errored) == multiset(t.errored)
  }

  /** Moving one run's worth of results across a join does not change the classification. */
  lemma JoinRearrange(x: Scan, r: Scan, before: Scan, after: Scan)
    requires SameUpToOrder(r, Join(before, after))
    ensures SameUpToOrder(Join(x, r), Join(Join(before, x), after))
  {
    assert multiset(x.verified + r.verified) == multiset(x.verified) + multiset(r.verified);
    assert multiset(before.verified + x.verified + after.verified)
      == multiset(before.verified) + multiset(x.verified) + multiset(after.verified);
    assert multiset(x.badDumps + r.badDumps) == multiset(x.badDumps) + multiset(r.badDumps);
    assert multiset(before.badDumps + x.badDumps + after.badDumps)
      == multiset(before.badDumps) + multiset(x.badDumps) + multiset(after.badDumps);
    assert multiset(x.unknown + r.unknown) == multiset(x.unknown) + multiset(r.unknown);
    assert multiset(before.unknown + x.unknown + after.unknown)
      == multiset(before.unknown) + multiset(x.unknown) + multiset(after.unknown);
    assert multiset(x.errored + r.errored) == multiset(x.errored) + multiset(r.errored);
    assert multiset(before.errored + x.errored + after.errored)
      == multiset(before.errored) + multiset(x.errored) + multiset(after.errored);
  }

  /** Taking the same element out of two equal multisets of entries. */
  lemma RemoveMatching(a: seq<DirEntry>, before: seq<DirEntry>, after: seq<DirEntry>)
    requires a != [] && multiset(a) == multiset(before + [a[0]] + after)
    ensures multiset(a[1..]) == multiset(before + after)
  {
    assert a == [a[0]] + a[1..];
    assert multiset(a[1..]) == multiset(a) - multiset{a[0]};
    assert multiset(before + [a[0]] + after) == multiset(before) + multiset{a[0]} + multiset(after);
    assert multiset(before + after) == multiset(before) + multiset(after);
  }

  /**
   * The enumeration order of the directory only affects the order within
   * each list, never what the lists contain.
   */
  lemma {:induction false} ScanIgnoresOrder(index: RomIndex, a: seq<DirEntry>, b: seq<DirEntry>)
    requires multiset(a) == multiset(b)
    ensures SameUpToOrder(ScanOf(index, a), ScanOf(index, b))
    decreases |a|
  {
    if a == [] {
      assert |b| == |multiset(b)| == 0;
      assert b == [];
    } else {
      var x := a[0];
      assert x in multiset(b);
      var j :| 0 <= j < |b| && b[j] == x;
      var before, after := b[..j], b[j + 1..];
      assert b == before + [x] + after;
      assert a == [x] + a[1..];
      RemoveMatching(a, before, after);
      ScanIgnoresOrder(index, a[1..], before + after);
      ScanAppend(index, [x], a[1..]);
      ScanAppend(index, before + [x], after);
      ScanAppend(index, before, [x]);
      ScanAppend(index, before, after);
      JoinRearrange(ScanOf(index, [x]), ScanOf(index, a[1..]), ScanOf(index, before), ScanOf(index, after));
    }
  }
}
