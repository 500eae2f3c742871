# aisap core in Dafny

A model of the two core parts of aisap, a library that opens AppImages for sandboxing:

- **Container detection and SquashFS offset resolution** (package `helpers`, `helpers/offset.go`). A file is
  classified as an ELF AppImage of type 1 or 2, some other ELF file (type 0), a shell-script AppImage
  ("shappimage", type -2), or not an AppImage (-1 with an error). The offset of the embedded SquashFS image is
  then found. For a shappimage it is the value of the first `sfs_offset=` line. For a type-2 AppImage it is the
  end of the ELF section header table, `e_shoff + e_shentsize * e_shnum`, read from the ELF header laid out as in
  the System V gABI, chapter 4, "ELF Header".
- **The AppImage object** (package `aisap`, `appimage.go`). It holds the permission profile: an isolation
  level and four append-only grant lists. `SetLevel` checks the level and derives the reported user, home and
  uid from it. The file also has the small rules for the version default, the icon choice and the PNG test of
  the thumbnail.

Files are `seq<byte>`, with `byte` an `int` in 0..255 (`binary.dfy`). The shell-script body is the
`seq<string>` of lines a line scanner yields. A Go `(int, error)` pair is `Helpers.Ret(value, err)`, where
`err` is an `Option`. `strconv.Atoi`/`Itoa` (`strconv.dfy`) and the `strings` functions the code calls
(`strings.dfy`) are modelled as far as the core uses them. Operations that read or branch are functions.
The byte-compare loop of `HasMagic` and the line scan of `getShappImageSize` are methods with loops, each
proved equal to a specification function. The AppImage is a class whose methods update its fields.

Inputs the program obtains from the operating system or from libraries are parameters:
- the current user's name and real uid (constructor of `Aisap.AppImage`);
- the verdict of `elf.NewFile` (`newFileAccepts`);
- the lines of the script;
- the permissions read from the AppImage or from an entry file;
- the `Icon` value of the desktop entry and the result of the icon glob;
- the bytes of `.DirIcon`.

Notable behaviours of the code that the model keeps:
- The shell-script scan reads every line; there is no line bound.
- The offset is parsed in base 10 only, so a `0x` prefix is a syntax error, bare or quoted (`Helpers.HexOffsetRejected`).
- Every `'` and `"` in the value is stripped, wherever it stands.
- A negative value such as `sfs_offset=-5` is accepted with no error (`Helpers.QuotedOffsetResolves`).
- A value that is not a number gives offset 0 with a syntax error, because `strconv.Atoi` returns 0 then.
- A number outside the 64-bit range gives the nearest bound, `9223372036854775807` or `-9223372036854775808`, with a range error.
- `strconv.Atoi` scans left to right. A run of digits that overflows a `uint64` is a range error even when a non-digit follows it (`Strconv.AtoiOverflowsFirst`).
- Detecting an ELF file needs only its first 4 bytes: a 4-byte file `\x7fELF` is type 0.
- `getElfSize` returns `0, nil` for an `EI_CLASS` other than 1 or 2, and an error for a header cut short. With the real `elf.NewFile` neither branch is reached: the library itself refuses an unknown class ("unknown ELF class") and a short header, so the program then returns -1 with the library's error. The model keeps both branches because the code has them, and leaves the library's verdict a parameter.
- Type-1 AppImages are rejected as unsupported.
- The length test in `AddFiles` counts UTF-8 bytes, as Go's `len` does (`Strings.Utf8Length`). A one-character entry such as `日` is three bytes long and becomes `日:ro`.

## Model

| member | source | states |
|---|---|---|
| `Helpers.HasMagic` | helpers/offset.go:155-172 | the result is true exactly when the file holds the magic at the offset: bytes `off .. off+|magic|-1` exist and are equal to it. A file that is too short gives false. An empty magic is found at any offset, because a `ReadFull` of 0 bytes succeeds |
| `Helpers.GetAppImageType` | helpers/offset.go:122-151 | the result is one of 1, 2, 0, -2, -1, and the error is nil iff the result is not -1. 1 iff `\x7fELF` at 0 and `AI\x01` at 8; 2 iff `\x7fELF` and `AI\x02` at 8; 0 iff `\x7fELF` with no `AI\x01`/`AI\x02` marker; -2 iff the file is not ELF and starts with the 19 bytes `#!/bin/sh\n#.shImg.#`; otherwise -1 with "unable to get AppImage type" |
| `Helpers.ShortNonElfIsUnknown` | helpers/offset.go:134-150 | a file shorter than 19 bytes that does not start with the ELF magic is -1 with an error, never a failed read |
| `Helpers.OffsetLineShape` | helpers/offset.go:49-52 | a line passes the scan's test (longer than 10 characters, `sfs_offset=` prefix, exactly two `=`-separated parts) iff it starts with `sfs_offset=` and has no other `=`. A line with a second `=` is skipped. The value is everything after the prefix |
| `Helpers.ShImgOffset` | helpers/offset.go:47-61 | the result is "not found" (-1 with an error) iff no line passes the test. Otherwise it is the parsed value of the first line that passes, whether that value parses or not |
| `Helpers.GetShappImageSize` | helpers/offset.go:35-62 | the loop returns what `ShImgOffset` specifies: it stops at the first matching line and reports not-found after the last line |
| `Helpers.FirstOffsetLine` | helpers/offset.go:48-58 | the first line that passes the test fixes the result; later lines are never consulted, including after a parse failure |
| `Helpers.Unquote` | helpers/offset.go:53-54 | removing every `'` and then every `"` from a value wrapped in one kind of quote gives back the bare value |
| `Helpers.QuotedOffsetResolves` | helpers/offset.go:52-57 | a first offset line of the form `sfs_offset=N`, `sfs_offset='N'` or `sfs_offset="N"` resolves to N with no error, for every 64-bit N, negative values included |
| `Helpers.HexOffsetRejected` | helpers/offset.go:52-57 | a first offset line `sfs_offset=0x…`, `sfs_offset='0x…'` or `sfs_offset="0x…"` gives 0 and a syntax error carrying the quote-stripped value; there is no hexadecimal form |
| `Helpers.StripQuotesOfQuoted` | helpers/offset.go:53-54 | stripping quotes from a value wrapped in one kind of quote is the same as stripping them from the value alone |
| `Helpers.GetElfSize` | helpers/offset.go:68-116 | the result is within Go's `int` range. An error comes with -1. The error is "rejected" iff `elf.NewFile` refuses the file or the file lacks the 16-byte `e_ident` or a known data encoding. "Truncated" iff the 64-byte (52-byte for ELF32) header is cut short. A class other than ELFCLASS32/ELFCLASS64 gives `0, nil` |
| `Helpers.Elf64SizeOfHeader` | helpers/offset.go:80-115 | for an ELF64 header in either byte order that stores `e_shoff` = O at 40 (8 bytes), `e_shentsize` = S at 58 and `e_shnum` = N at 60 (2 bytes each), the result is O + S*N, wrapped to a 64-bit Go `int` |
| `Helpers.Elf32SizeOfHeader` | helpers/offset.go:96-115 | for an ELF32 header in either byte order that stores O at 32 (4 bytes), S at 46 and N at 48, the result is exactly O + S*N |
| `Helpers.Signed64OfSum` | helpers/offset.go:93-115 | converting `e_shoff` to `int` before the wrapping addition gives the same result as wrapping the exact sum |
| `Helpers.GetOffset` | helpers/offset.go:16-31 | a detection failure gives -1 with the detection error. -2 dispatches to the script scan and 2 to the ELF size. 0 gives -1 with the missing `AI\x02` magic error and 1 gives -1 with "unsupported AppImage type". An offset without error is only ever produced for types 2 and -2 |
| `Helpers.Type2OffsetIsSectionTableEnd` | helpers/offset.go:16-31 | a 64-bit type-2 AppImage whose header stores O, S and N, with O + S*N within `int` range, is resolved to offset O + S*N with no error |
| `Strconv.Atoi` | helpers/offset.go:55 | there is no error iff the input is an optional sign followed by decimal digits whose value is within the 64-bit range, and then the result is that value. A well-formed value beyond the range gives the nearest bound and a range error. A syntax error comes with 0 and only for a malformed input; a range error comes with one of the two bounds. Every error carries the input string |
| `Strconv.AtoiRejectsNonDigit` | helpers/offset.go:55 | a non-digit after the first character and among the first 20 makes the whole string a syntax error with value 0, because at most 19 digits before it cannot overflow first |
| `Strconv.AtoiOverflowsFirst` | helpers/offset.go:55 | digits whose value exceeds the largest `uint64` give `9223372036854775807` and a range error, whatever follows them |
| `Strconv.AtoiItoa` | appimage.go:203 | `Atoi` inverts `Itoa` on every 64-bit integer, so the uid string `strconv.Itoa(os.Getuid())` denotes the real uid |
| `Strings.Split` | helpers/offset.go:50 | `strings.Split` yields one more piece than there are separators, and no piece contains the separator |
| `Strings.JoinSplit` | helpers/offset.go:50-52 | joining the pieces of `Split` with the separator gives back the input |
| `Strings.SplitAtOnlySeparator` | helpers/offset.go:50-52 | a string with exactly one separator splits into the text before it and the text after it |
| `Strings.Utf8Length` | appimage.go:137 | Go's `len` of a string is its UTF-8 byte count: at least the number of characters and at most four times it, with equality with the number of characters iff every character is ASCII |
| `Strings.RemoveAll` | helpers/offset.go:53-54 | `strings.ReplaceAll(s, c, "")` leaves no `c` and removes exactly the occurrences of `c` |
| `Binary.DecodeEncode` | helpers/offset.go:88-103 | reading a field in little- or big-endian order inverts writing it in that order, for every value that fits the width |
| `Binary.BigEndianIsReversedLittleEndian` | helpers/offset.go:88-103 | the big-endian value of a byte string is the little-endian value of its reverse |
| `Aisap.DefaultVersion` | appimage.go:83-87 | the version is never empty: a version from the desktop entry is kept, and a missing one becomes "1.0" |
| `Aisap.NormaliseFileMode` | appimage.go:135-143 | for every entry of at least three UTF-8 bytes: the entry stays the same iff it ends in `:ro` or `:rw`; otherwise `:ro` is appended. Either way the result ends in `:ro` or `:rw` |
| `Aisap.NormaliseFileIdempotent` | appimage.go:139-142 | normalising a normalised entry changes nothing |
| `Aisap.NormaliseFileExample` | appimage.go:133-146 | `/tmp/a` becomes `/tmp/a:ro` and `/tmp/b:rw` is kept |
| `Aisap.NormaliseFileMultiByte` | appimage.go:135-143 | the one-character entry `日` is three bytes long, passes the slice, and becomes `日:ro` |
| `Aisap.FirstImage` | appimage.go:263-269 | the result is None or the index of the first candidate ending in `.png` or `.svg`; None iff no candidate does |
| `Aisap.Icon` | appimage.go:242-271 | an unparsed desktop gives an error, and so does an empty `Icon` key. A key ending in `.png`/`.svg` is used as it is. Otherwise a failed glob gives the glob error, and a glob result with an image path succeeds with the first such path. "No valid icon" iff no globbed path has one, and any chosen name has an image ending |
| `Aisap.MagicBuffer` | appimage.go:105-106 | the 4-byte buffer holds the icon's first bytes, with zeros where the icon is shorter |
| `Aisap.PngTest` | appimage.go:111-112 | the test passes iff the icon starts with `\x89PNG`; a shorter icon never passes |
| `Aisap.ThumbnailAsWrittenDropsSignature` | appimage.go:98-119 | as written, a PNG `.DirIcon` comes back without its first four bytes |
| `Aisap.ThumbnailAsWrittenPadsShortIcon` | appimage.go:105-114 | as written, an icon shorter than four bytes is converted followed by the zero padding of the magic buffer |
| `Aisap.Thumbnail` | appimage.go:98-119 | corrected: the icon is passed through iff it starts with the PNG magic, and the stream returned or converted is the whole icon |
| `Aisap.TypeOf` | appimage.go:208-211 | `Type()` gives one of 1, 2, 0, -2, -1, and -1 exactly when detection failed |
| `Aisap.AppImage.constructor` | appimage.go:55-94 | the version defaults as above and the profile is the one read. A level within 0..3 sets the identity it selects. An out-of-range level leaves the identity empty, because the error of `SetLevel` is ignored |
| `Aisap.AppImage.UpdateHome` | appimage.go:191-206 | there is an error iff the level is outside 0..3, and then nothing changes. Otherwise the user is the invoking user at levels 0 and 1 and "ai" at levels 2 and 3; home is `/home/` + user; uid is the real uid at every level |
| `Aisap.AppImage.SetLevel` | appimage.go:179-189 | there is an error iff the level is outside 0..3, and then the profile and identity are unchanged. On success only the level and the identity change |
| `Aisap.AppImage.AddFiles` | appimage.go:133-146 | requires every entry to have at least 3 UTF-8 bytes, where the source would panic. Each entry of the caller's array is rewritten in place to its normalised form. The entries are appended, in order, to `Files`; earlier entries are kept and nothing is deduplicated. Nothing else changes |
| `Aisap.AppImage.AddDevices` | appimage.go:148-150 | the argument is appended unchanged to `Devices`; the other lists, the level and the identity are untouched |
| `Aisap.AppImage.AddSockets` | appimage.go:152-154 | the argument is appended unchanged to `Sockets`; nothing else changes |
| `Aisap.AppImage.AddShare` | appimage.go:156-158 | the argument is appended unchanged to `Share`; nothing else changes |
| `Aisap.AppImage.SetPerms` | appimage.go:160-165 | the whole profile is replaced by the loaded one, the load error is returned, and the identity is not recomputed |

## Left out

- Opening and stat-ing the file (`os.Open`, `f.Stat`) and their errors in `GetAppImageType`, `getShappImageSize` and `getElfSize`. The file's bytes are given.
- `HasMagic` with a negative offset: the offset is a `nat`. In Go the failed `Seek` would leave the reader where it was, and the callers only use 0 and 8.
- The splitting of the script into lines by `bufio.Scanner`, with its token-size limit: the lines are a parameter. A line over the limit would end the scan early; this is not modelled.
- The checks inside `elf.NewFile` beyond the 16-byte `e_ident` and the data encoding: its verdict is the parameter `newFileAccepts`. The library refuses an unknown `EI_CLASS` and a short header, so in the program `getElfSize`'s `0, nil` branch and its truncated-header error are never reached. The model leaves that check to the parameter, so both branches stay reachable in it.
- Go strings that are not valid UTF-8: a string is a sequence of code points, and `Strings.Utf8Length` gives the byte length Go's `len` reports.
- `binary.Read` is modelled only as reading the three header fields in the declared byte order; the other header fields are not decoded.
- A 32-bit Go `int`: the model assumes a 64-bit platform.
- `NewAppImage`'s I/O: generating the run id, creating the temporary and mount directories, `Mount`, the `*.desktop` glob, `ioutil.ReadFile`, `ini.Load` and `getPermsFromAppImage`. Their results are constructor parameters. The source's missing cleanup on failure and its unchecked `fp[0]` are not modelled.
- The accessors `TempDir`, `MountDir` and `RunId`: they return fields that only the directory-creating I/O sets.
- `SetRootDir`, `SetDataDir` and `SetTempDir`: each assigns a package global that nothing in the core reads.
- `ExtractFile`: file copying, symbolic links and `os.Remove`.
- `Thumbnail`'s image conversion (`imgconv.ConvertWithAspect`) and the opening of `.DirIcon`; the model says which stream is handed back or converted.
- `Icon`'s opening of the chosen file and that error; the model returns the chosen name.
- `getPermsFromEntry` in `SetPerms`: its result is a parameter. A nil result, which would make the source panic, is not modelled.
- Aisap.AppImage.constructor: the identity fields are per object. In the source, `usern`, `homed` and `uid` are package globals shared by all AppImages, so one object's `SetLevel` changes what another reports.
- Aisap.AppImage.UpdateHome: `filepath.Join("/home", name)` is modelled as `"/home/" + name`. The two agree for the plain user names the constructor requires (non-empty, no `/`, not `.` or `..`); Join's path cleaning of other names is not modelled.
- `user.Current()` failing, which would make `updateHome` dereference nil: the current user name is a parameter.
- The command-line front end (`aisap-bin/flags.go`) is not part of this model.

## Findings

| source | as written | input that shows it | evidently intended | confidence | as-written member | corrected member |
|---|---|---|---|---|---|---|
| appimage.go:105-118 | The 4-byte magic is read from the `.DirIcon` file. It is put back in front of the stream only on the conversion path. On the PNG path the already-advanced file is returned. | any PNG `.DirIcon`, e.g. the bytes `89 50 4E 47 0D 0A 1A 0A …`: the reader handed back starts at `0D 0A 1A 0A`. An icon shorter than four bytes, e.g. `00 01`, is converted as `00 01 00 00` (`Aisap.ThumbnailAsWrittenPadsShortIcon`) | the returned or converted stream is the whole icon file, signature included and with no padding | high, not executed | `Aisap.ThumbnailAsWrittenDropsSignature` (on `Aisap.ThumbnailAsWritten`) | `Aisap.Thumbnail` |
