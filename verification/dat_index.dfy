/**
 * Building the ROM index from a DAT manifest (`parse_dat_file`).
 *
 * The XML document is given already parsed: the sequence of `game`
 * elements that `findall('.//game')` returns, in document order, each
 * with the attributes of its first `rom` child.
 */
module DatIndex {
  import opened Wrappers
  import opened Text

  /** Attributes of a `rom` element; an absent attribute is None. */
  datatype Rom = Rom(name: Option<string>, sha256: Option<string>, size: Option<string>)

  /** A `game` element: its `name` attribute and its first `rom` child, if any. */
  datatype Game = Game(name: Option<string>, rom: Option<Rom>)

  /** What reading and parsing the DAT file yields. */
  datatype DatFile = Unreadable | MalformedXml | Document(games: seq<Game>)

  /** Why no index could be built: I/O, XML syntax, or a size `int()` rejects. */
  datatype DatError = ReadError | XmlError | InvalidSize(text: string)

  /** The value stored under a ROM name. */
  datatype RomInfo = RomInfo(sha256: string, gameName: string, size: int)

  type RomIndex = map<string, RomInfo>

  /** `rom.get('sha256', '').lower()` */
  function ExpectedDigest(rom: Rom): string {
    Lower(rom.sha256.GetOr(""))
  }

  /** The game's first rom has a non-empty name and a non-empty digest. */
  predicate Kept(g: Game) {
    && g.rom.Some?
    && g.rom.value.name.Some?
    && g.rom.value.name.value != ""
    && ExpectedDigest(g.rom.value) != ""
  }

  /** Game `g` yields an index entry under the ROM name `k`. */
  predicate Keeps(g: Game, k: string) {
    Kept(g) && g.rom.value.name.value == k
  }

  /** `int(rom.get('size', 0))`; None where `int()` raises. */
  function SizeOf(rom: Rom): Option<int> {
    match rom.size
    case None => Some(0)
    case Some(text) => ParseInt(text)
  }

  /** What one game adds to the index: nothing, one entry, or the size error. */
  function Admit(g: Game): Result<Option<(string, RomInfo)>, DatError> {
    if !Kept(g) then Ok(None)
    else
      var rom := g.rom.value;
      match SizeOf(rom)
      case None => Err(InvalidSize(rom.size.value))
      case Some(n) => Ok(Some((rom.name.value, RomInfo(ExpectedDigest(rom), g.name.GetOr(""), n))))
  }

  /** The index after the games have been inserted one by one, in order. */
  function IndexOf(games: seq<Game>): Result<RomIndex, DatError> {
    if games == [] then Ok(map[])
    else
      match IndexOf(games[..|games| - 1])
      case Err(e) => Err(e)
      case Ok(m) => Add(m, games[|games| - 1])
  }

  function Add(m: RomIndex, g: Game): Result<RomIndex, DatError> {
    match Admit(g)
    case Err(e) => Err(e)
    case Ok(None) => Ok(m)
    case Ok(Some((k, info))) => Ok(m[k := info])
  }

  /** The outcome `parse_dat_file` has for a DAT file. */
  function DatIndexOf(dat: DatFile): Result<RomIndex, DatError> {
    match dat
    case Unreadable => Err(ReadError)
    case MalformedXml => Err(XmlError)
    case Document(games) => IndexOf(games)
  }

  /**
   * `parse_dat_file`: loops over the games, inserting into the dictionary;
   * the first invalid size aborts the whole parse.
   */
  method ParseDatFile(dat: DatFile) returns (r: Result<RomIndex, DatError>)
    ensures r == DatIndexOf(dat)
  {
    match dat
    case Unreadable => return Err(ReadError);
    case MalformedXml => return Err(XmlError);
    case Document(games) =>
      var roms: RomIndex := map[];
      for i := 0 to |games|
        invariant IndexOf(games[..i]) == Ok(roms)
      {
        var game := games[i];
        assert games[..i + 1][..i] == games[..i] && games[..i + 1][i] == game;
        assert IndexOf(games[..i + 1]) == Add(roms, game);
        if game.rom.Some? {
          var rom := game.rom.value;
          var romName := rom.name;
          var expectedSha256 := Lower(rom.sha256.GetOr(""));
          if romName.Some? && romName.value != "" && expectedSha256 != "" {
            var size := SizeOf(rom);
            if size.None? {
              ErrorPersists(games, i + 1);
              return Err(InvalidSize(rom.size.value));
            }
            roms := roms[romName.value := RomInfo(expectedSha256, game.name.GetOr(""), size.value)];
          }
        }
      }
      assert games[..|games|] == games;
      return Ok(roms);
  }

  /** Once a prefix of the games fails, the whole parse fails with the same error. */
  lemma {:induction false} ErrorPersists(games: seq<Game>, n: nat)
    requires n <= |games| && IndexOf(games[..n]).Err?
    ensures IndexOf(games) == IndexOf(games[..n])
    decreases |games| - n
  {
    if n < |games| {
      assert games[..n + 1][..n] == games[..n];
      ErrorPersists(games, n + 1);
    } else {
      assert games[..n] == games;
    }
  }

  /** The game keeps no rom, or keeps one whose size `int()` accepts. */
  predicate SizeAccepted(g: Game) {
    Kept(g) ==> SizeOf(g.rom.value).Some?
  }

  lemma AdmitOk(g: Game)
    ensures Admit(g).Ok? <==> SizeAccepted(g)
  {
  }

  /** A parse fails on a well-formed document exactly when some kept rom has a size `int()` rejects. */
  lemma {:induction false} IndexOkIff(games: seq<Game>)
    ensures IndexOf(games).Ok? <==> forall i :: 0 <= i < |games| ==> SizeAccepted(games[i])
  {
    if games != [] {
      var p, g := games[..|games| - 1], games[|games| - 1];
      IndexOkIff(p);
      AdmitOk(g);
      assert IndexOf(games).Ok? <==> IndexOf(p).Ok? && Admit(g).Ok?;
      if IndexOf(games).Ok? {
        forall i | 0 <= i < |games| ensures SizeAccepted(games[i]) {
          if i < |p| {
            assert games[i] == p[i];
          }
        }
      } else if IndexOf(p).Err? {
        var i :| 0 <= i < |p| && !SizeAccepted(p[i]);
        assert games[i] == p[i];
      } else {
        assert !SizeAccepted(games[|p|]);
      }
    }
  }

  /** The error reported is that of the first kept rom whose size `int()` rejects. */
  lemma {:induction false} IndexFirstError(games: seq<Game>)
    requires IndexOf(games).Err?
    ensures exists i :: (
      && 0 <= i < |games| && Kept(games[i]) && SizeOf(games[i].rom.value).None?
      && IndexOf(games).error == InvalidSize(games[i].rom.value.size.value)
      && forall j :: 0 <= j < i && Kept(games[j]) ==> SizeOf(games[j].rom.value).Some?)
  {
    var p := games[..|games| - 1];
    assert forall i :: 0 <= i < |p| ==> p[i] == games[i];
    if IndexOf(p).Err? {
      IndexFirstError(p);
    } else {
      IndexOkIff(p);
      var i := |games| - 1;
      assert Kept(games[i]) && SizeOf(games[i].rom.value).None?;
    }
  }

  /** A name is a key of the index exactly when some game keeps a rom of that name. */
  lemma {:induction false} IndexKeys(games: seq<Game>, m: RomIndex)
    requires IndexOf(games) == Ok(m)
    ensures forall k :: k in m <==> exists i :: 0 <= i < |games| && Keeps(games[i], k)
  {
    if games != [] {
      var p := games[..|games| - 1];
      var g := games[|games| - 1];
      var m0 := IndexOf(p).value;
      IndexKeys(p, m0);
      forall k ensures k in m <==> exists i :: 0 <= i < |games| && Keeps(games[i], k) {
        if k in m && !Keeps(g, k) {
          var i :| 0 <= i < |p| && Keeps(p[i], k);
          assert games[i] == p[i];
        }
        if exists i :: 0 <= i < |games| && Keeps(games[i], k) {
          var i :| 0 <= i < |games| && Keeps(games[i], k);
          if i < |p| {
            assert Keeps(p[i], k);
          }
        }
      }
    }
  }

  /**
   * Last one wins: the entry under `k` comes from the last game keeping `k`,
   * with the lower-cased digest, the game's name ("" when absent) and the
   * size (0 when absent).
   */
  lemma {:induction false} IndexLastWins(games: seq<Game>, m: RomIndex, k: string, i: nat)
    requires IndexOf(games) == Ok(m)
    requires i < |games| && Keeps(games[i], k)
    requires forall j :: i < j < |games| ==> !Keeps(games[j], k)
    ensures k in m
    ensures m[k].sha256 == Lower(games[i].rom.value.sha256.value)
    ensures m[k].gameName == games[i].name.GetOr("")
    ensures SizeOf(games[i].rom.value) == Some(m[k].size)
    ensures games[i].rom.value.size.None? ==> m[k].size == 0
  {
    var p := games[..|games| - 1];
    var g := games[|games| - 1];
    var m0 := IndexOf(p).value;
    if i < |p| {
      assert !Keeps(g, k);
      forall j | i < j < |p| ensures !Keeps(p[j], k) {
        assert p[j] == games[j];
      }
      IndexLastWins(p, m0, k, i);
    }
  }

  /** Every stored digest is non-empty and contains no upper-case letter. */
  lemma {:induction false} IndexDigestsLower(games: seq<Game>, m: RomIndex)
    requires IndexOf(games) == Ok(m)
    ensures forall k :: k in m ==> m[k].sha256 != "" && IsLowerCase(m[k].sha256)
  {
    if games != [] {
      var p := games[..|games| - 1];
      IndexDigestsLower(p, IndexOf(p).value);
    }
  }
}
