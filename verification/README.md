# DatVerifier — a Dafny model of the ROM verification engine

DatVerifier checks a folder of ROM images against a DAT manifest. The manifest
is an XML document of `game` elements, and each game has a `rom` child with a
name, a SHA-256 digest and a size. The tool builds an index from ROM name to
expected digest (`parse_dat_file`). It then scans the folder and sorts every
regular file into *verified*, *bad dump* or *unknown*; a file whose hashing
fails is reported and skipped. Index names that no file carries are *missing*
(`verify_roms`). Finally it writes a text report with fixed sections
(`write_report`).

The model has one Dafny module per concern:

- `Wrappers` (`wrappers.dfy`): `Option` and `Result`.
- `Text` (`text.dfy`): the two conversions applied to attribute text. These
  are `str.lower()` on the digest and `int()` on the size.
- `Sorting` (`sorting.dfy`): Python's string order and `sorted()`, proved
  sorted, a permutation, and unique.
- `DatIndex` (`dat_index.dfy`): `parse_dat_file`. A loop inserts into a map.
  It is proved equal to the fold `IndexOf`, and the fold's properties are
  proved as lemmas.
- `Verification` (`verification.dfy`): `verify_roms`. A loop fills
  `found_roms` and the three lists. It is proved equal to the fold `ScanOf`,
  and `missing` is proved to be the index keys minus the found names. Lemmas
  prove the classification, the accounting, the partition and order
  independence.
- `ReportWriter` (`report.dfy`): `write_report` as the sequence of lines it
  writes. It is proved equal to `Report`, whose layout is proved.

Several things are inputs to the model rather than computed:

- Hashing: each directory entry carries its digest, or `HashFailure` when
  `calculate_sha256` raises.
- Directory enumeration: the entries come as a sequence in enumeration order,
  each with its `is_file()` flag.
- XML parsing: `DatFile` is `Unreadable`, `MalformedXml`, or the
  `Document` of `game` records that `findall('.//game')` yields. Each record
  holds the attributes of the game's first `rom` child.

Where the code's behaviour is easy to misread, the model follows the code:

- A file whose hashing fails is printed and dropped. It goes into no list of
  the result, and it is not missing either. The model records these names
  in the scan state (`Scan.errored`) for the proofs, but the result does not
  carry them.
- A `size` that `int()` rejects aborts the whole parse, and `verify_roms`
  then returns no result. The model does not default such a size to 0.
- The result collections are Python lists, not sets. Duplicate entries
  appear only if the enumeration repeats a name. The partition lemmas
  therefore assume distinct regular-file names (`UniqueFileNames`), which a
  directory guarantees.
- The digests are compared as exact strings. The expected digest is
  lowercased and `hexdigest()` is lowercase.

## Model

| member | source | states |
|---|---|---|
| `Text.Lower` | rom_verifier.py:27 | the result has the input's length and no upper-case letter; every other character is unchanged, and each upper-case letter becomes its lower-case partner |
| `Text.ParseInt` | rom_verifier.py:32 | `int()` on the size text: optional surrounding white space, an optional sign, decimal digits with single underscores between them; anything else is an error. Its properties are stated by `ParseShowRoundTrip` and `IndexOkIff` |
| `Text.ParseShowRoundTrip` | rom_verifier.py:32 | `int()` as modelled reads back every integer's decimal text |
| `Sorting.Sort` | rom_verifier.py:111 | `sorted()` on a list of names; what it returns is stated by `SortSorted`, `SortedUnique` and `SortIgnoresOrder` |
| `Sorting.SortSorted` | rom_verifier.py:111 | `sorted()` returns the same strings (as a multiset) in ascending code-point order |
| `Sorting.InsertSorted` | rom_verifier.py:111 | a helper of the sort model, not of the source (Python's `sorted()` is Timsort): inserting a string into a sorted list keeps it sorted and adds exactly that string, which is how `SortSorted` is proved |
| `Sorting.SortedUnique` | rom_verifier.py:120 | two sorted lists with the same elements are equal, so the sorted output is determined by the contents alone |
| `Sorting.SortIgnoresOrder` | rom_verifier.py:129 | lists that are permutations of each other sort to the same list |
| `DatIndex.Admit` | rom_verifier.py:24-32 | what one game contributes: nothing without a rom or without a name and digest, otherwise the entry with the lowered digest, the game name and the size, or the size error; stated by `AdmitOk`, `IndexKeys` and `IndexLastWins` |
| `DatIndex.IndexOf` | rom_verifier.py:22-34 | the dictionary built by inserting the games' entries in document order, or the first size error; stated by `IndexOkIff`, `IndexFirstError`, `IndexKeys`, `IndexLastWins` and `IndexDigestsLower` |
| `DatIndex.ParseDatFile` | rom_verifier.py:17-34 | the loop over the games computes the index that in-order insertion defines, stops at the first size error, and fails on an unreadable or malformed document |
| `DatIndex.ErrorPersists` | rom_verifier.py:23-33 | once the games read so far have raised an error, the whole parse fails with that same error |
| `DatIndex.IndexOkIff` | rom_verifier.py:28-32 | a document's games give an index exactly when every game either keeps no rom or keeps one whose size is absent or accepted by `int()` |
| `DatIndex.IndexFirstError` | rom_verifier.py:23-32 | a failed parse reports the size text of the first kept rom whose size `int()` rejects |
| `DatIndex.IndexKeys` | rom_verifier.py:23-29 | a name is an index key exactly when some game's first rom has that non-empty name and a non-empty digest; games without a rom add nothing |
| `DatIndex.IndexLastWins` | rom_verifier.py:23-33 | the entry for a name comes from the last game carrying it; it holds the lowercased digest, the game name ("" when absent), and the size (0 when absent) |
| `DatIndex.IndexDigestsLower` | rom_verifier.py:27-30 | every stored digest is non-empty and has no upper-case letter |
| `Verification.ListOf` | rom_verifier.py:86 | `list(s)` holds each element of the set exactly once and nothing else |
| `Verification.VerifyRoms` | rom_verifier.py:36-88 | no result exactly when the DAT file yields no index; otherwise the verified, bad dump and unknown lists of the in-order scan, and as missing each index key that names no regular file, once |
| `Verification.Step` | rom_verifier.py:62-83 | one iteration of the directory loop: a non-file is skipped; a file is found and then verified, a bad dump, a hashing error or unknown; stated by the `Scan*` lemmas |
| `Verification.ScanOf` | rom_verifier.py:59-83 | the state after the loop over the entries in enumeration order; stated by `ScanFound`, `ScanVerified`, `ScanBadDumps`, `ScanUnknown`, `ScanErrored`, `ScanAccounting` and the partition lemmas |
| `Verification.ScanFound` | rom_verifier.py:61-64 | `found_roms` is exactly the set of names of regular files; other entries are ignored |
| `Verification.ScanVerified` | rom_verifier.py:66-72 | a name is verified exactly when a regular file of that name is indexed and hashes to the stored digest |
| `Verification.ScanBadDumps` | rom_verifier.py:73-79 | a record is a bad dump exactly when a regular indexed file hashed to a different digest; the record holds the name, game name and expected digest from the index, and the actual digest |
| `Verification.ScanUnknown` | rom_verifier.py:82-83 | a name is unknown exactly when it names a regular file and is not an index key |
| `Verification.ScanErrored` | rom_verifier.py:80-81 | a name is reported as a hashing error exactly when a regular indexed file of that name failed to hash |
| `Verification.ScanAccounting` | rom_verifier.py:61-83 | verified, bad dumps, unknown and hashing errors together have exactly as many elements as there are regular files |
| `Verification.MissingDisjoint` | rom_verifier.py:86 | a missing name is in none of verified, bad dumps, unknown or the hashing errors |
| `Verification.HashFailureExcluded` | rom_verifier.py:64-81 | with distinct file names, a regular indexed file whose hashing fails is found, so not missing, and is in none of verified, bad dumps or unknown |
| `Verification.FilePartition` | rom_verifier.py:61-83 | with distinct file names, each regular file's name is in exactly one of verified, bad dumps, unknown and hashing errors |
| `Verification.ManifestPartition` | rom_verifier.py:58-86 | with distinct file names, each index key is in exactly one of verified, bad dumps, missing and hashing errors |
| `Verification.EmptyIndexAllUnknown` | rom_verifier.py:82-83 | with an empty index, every regular file is unknown and nothing is verified, a bad dump or a hashing error |
| `Verification.ScanAppend` | rom_verifier.py:61-83 | scanning two runs of entries one after the other appends their lists and unites their found names |
| `Verification.ScanIgnoresOrder` | rom_verifier.py:61 | permuting the directory entries permutes each list and leaves the found names unchanged |
| `ReportWriter.WriteBadDumps` | rom_verifier.py:96-106 | appends the bad dump section: title, rule, then each dump's five lines in order, or the placeholder and a blank line |
| `ReportWriter.WriteNames` | rom_verifier.py:108-114 | appends a titled section of the names in sorted order, or its placeholder when there are none |
| `ReportWriter.WriteReport` | rom_verifier.py:90-132 | the lines written are exactly the report of the results |
| `ReportWriter.Report` | rom_verifier.py:93-132 | the report text as its lines; its layout is stated by `ReportSectionOrder`, `ReportBadDumps`, the three `Report*List` lemmas and `ReportIgnoresListOrder` |
| `ReportWriter.ReportSectionOrder` | rom_verifier.py:93-127 | the report opens with its title, its rule and a blank line; then come the Bad Dumps, Missing ROMs, Unknown Files and Verified ROMs sections in that order, each of the last three preceded by a blank line |
| `ReportWriter.ReportMissingList` | rom_verifier.py:108-114 | the Missing ROMs section lists the missing names in sorted order, or reads "None missing" when there are none |
| `ReportWriter.ReportUnknownList` | rom_verifier.py:117-123 | the Unknown Files section lists the unknown names in sorted order, or reads "None found" when there are none |
| `ReportWriter.ReportVerifiedList` | rom_verifier.py:126-132 | the report ends with the verified names in sorted order, or with "None verified" when there are none |
| `ReportWriter.ReportBadDumps` | rom_verifier.py:96-106 | the i-th bad dump fills five lines (game, ROM, expected digest, actual digest, blank) in the order found; with no bad dumps the section reads "None found" then a blank line |
| `ReportWriter.ReportIgnoresListOrder` | rom_verifier.py:108-132 | results that differ only in the order of their missing, unknown and verified lists give the same report |

## Left out

- SHA-256 and the chunked file reading (`calculate_sha256`, rom_verifier.py:9-15): a foreign library plus I/O. Each entry carries its digest or a hashing failure.
- XML parsing (`ET.parse`, `findall`, `find`, rom_verifier.py:19-24): a foreign library. The model starts from the sequence of `game` records.
- Directory enumeration and `is_file()` (rom_verifier.py:57-62): file-system I/O. The model takes a sequence of entries, each with its flag.
- The console messages (rom_verifier.py:42, 45, 81) are not produced. The hashing errors survive only as the names in `Scan.errored`.
- `main` (rom_verifier.py:134-168): argument checks, path existence checks, the summary printout and the exit status. This is command-line glue.
- `ReportWriter.Report`: opening and writing the file is left out, and the report is the list of lines. A text holding a newline spans two lines in the real file but is one element here. This applies to a file name, and to a game name or `sha256` attribute written with `&#10;` in the XML (the "Game:" and "Expected SHA256:" lines, rom_verifier.py:100 and 102).
- `Verification.VerifyRoms`: file names are sequences of Unicode scalar values. On POSIX, Python turns bytes of a file name that do not decode into lone surrogates U+DC80 to U+DCFF, which reach `file_path.name` and are ordered by code point in `sorted()`. A Dafny `char` cannot hold a surrogate, so such names, and the scan, partition and report lemmas about them, are not modelled.
- `Text.Lower`: lowers ASCII letters only. Python's `str.lower()` also lowers other Unicode letters.
- `Text.ParseInt`: strips only the six ASCII white-space characters and accepts only ASCII digits. Python's `int()` also accepts other Unicode white space and digits. Such sizes are an error in the model. It also has no limit on the number of digits. CPython 3.11 and later, and the 2022 security releases of 3.7 to 3.10, reject a size of more than 4300 digits (`sys.get_int_max_str_digits()`). On those interpreters such a size aborts the parse, while the model accepts it. The limit depends on the interpreter version and its settings, so it is not modelled.
- Verification.FilePartition, Verification.ManifestPartition, Verification.HashFailureExcluded: these assume the regular files have distinct names, which a directory guarantees. Without that assumption, one name can land in two lists.
