# libpathutils, modelled in Dafny

libpathutils is a small C/C++ library that cleans up file system paths so that
tools can write output files safely. This project models its path-handling core:

- **`fz_normalize_path`** (module `MuNormalize`). It resolves `.` and `..`
  components in place. It also turns backslashes into slashes, keeps a UNC or
  long-path leader and upper-cases a drive letter. It raises "illegal /.. path"
  in one case only: after the token loop, what follows the leader is a root
  slash, one segment other than `..`, and a final `..`, as in `/a/..`. Other
  climbs above the root pass: a leading `/..` stays, `/x/../../y` becomes
  `/../y`, and `C:\..\b0rk` comes back as `C:/../b0rk`.
- **`fz_sanitize_path_ex` / `fz_sanitize_path`** (module `MuSanitize`). These
  rewrite a path in place so that every component is a portable file name:
  - banned, control and shell-risky bytes become replacements;
  - braces become parentheses;
  - runs of replacements collapse;
  - `printf` format specifiers and a caller-chosen character set are mapped;
  - a component that `is_reserved_filename` rejects, or one longer than
    255 bytes, is meant to be renamed to a hash-based `_H%08X_…` name by
    `rigorously_clean_fname`; as written that renaming never finishes,
    and the model gives no result there (see "## Left out").
- **`is_reserved_filename`** and the `has_*` tests (module `MuReserved`).
- **`calchash`** (module `MuHash`).
- **`fz_mk_relative_path`, `fz_mk_absolute_path_using_absolute_base` and
  `fz_is_absolute_path`** (module `MuRelative`).
- **`register_source_filename_for_dst_path` and `mk_dst_filename`** (class
  `BinarizationNames.Namer`). They name the output directory and the numbered
  output files of a source file.
- **crow's utility functions**:
  - base64 encoding and decoding (module `CrowBase64`);
  - `sanitize_filename` (modules `CrowSanitize`, with the test expectations in
    `CrowSanitizeExamples`);
  - `normalize_path`, `string_equals` and `trim` (module `CrowUtility`).
- **curl's `curl_sanitize_file_name`, `truncate_dryrun`, `get_max_sanitized_len`
  and `rename_if_reserved_dos_device_name`**:
  - `CurlSanitize` holds the byte-level specification;
  - `CurlSanitizeBuffer` holds the in-place buffer algorithm;
  - `CurlDosWin` holds the truncation and renaming parts.
- **`is_stdio_path` / `process_path_as_stdio`** (module `StdioPath`) and the
  perfect-hash recognizer of system channel names (module `SystemChannels`).
- **`name_is_antiquated_dos_device`, `splitFile`, `splitExtension` and
  `relativePath`** from the library's C++ test helpers (module `PathHelpers`).

Shared C-string vocabulary lives in `CStrings`:
- bytes as `char`;
- the terminator `NUL`;
- `ctype` classes;
- case-insensitive comparison;
- the C string held in a buffer;
- `memmove`.

Each routine that works on a buffer in place is an imperative `method` over an
`array<char>`. Each such method is proved equal to a value-level specification
function (`Normalize`, `Sanitized`, `Relative`, `SanitizedName`, `Encoded`, ...).
The library's promises are lemmas about those functions. Exceptions and error
returns are `Outcome` / `Result` values.

## Model

| member | source | states |
|---|---|---|
| CStrings.MemMoveDown | sanitize-filepath.c:96-97 | `memmove` towards lower addresses inside one buffer: the moved bytes land at the destination and every byte outside the destination range keeps its value |
| CStrings.CStrOfPrefix | sanitize-filepath.c:40-50 | a buffer with `n` non-NUL bytes and then a NUL holds exactly the C string of those `n` bytes |
| CStrings.StartsWithIgnoringCaseLower | sanitize-filepath.c:200-204 | against a lower-case pattern, the case-insensitive prefix test is a plain prefix test on the lower-cased input |
| MuHash.ComputeHash | sanitize-filepath.c:174-194 | the byte loop of `calchash` followed by the final mix returns `CalcHash(s)` for every C string |
| MuHash.CalcHashIsFold | sanitize-filepath.c:179-191 | `calchash` is the left fold of the per-byte round over the bytes from the seed, then one mix |
| MuHash.StateAppend | sanitize-filepath.c:179-187 | the hash state streams: hashing `a + b` is hashing `b` from the state `a` left |
| MuHash.HashValues | sanitize-filepath.c:174-194 | reference values of the hash for the empty string and `a` |
| MuNormalize.NormalizePath | sanitize-filepath.c:33-171 | null buffer and overrun raise their exceptions and leave the buffer alone; otherwise the buffer ends up holding `Normalize(path)` or the exception is the one `Normalize` names |
| MuNormalize.NormalizeBufferIn | sanitize-filepath.c:52-170 | the in-place pass turns the buffer into `Normalize` of its old contents, or throws exactly the message `Normalize` gives |
| MuNormalize.UnixifyBuffer | sanitize-filepath.c:52-58 | every backslash of the string becomes a slash and nothing else changes |
| MuNormalize.SkipLeaderAndDrive | sanitize-filepath.c:62-84 | skips the `//?/`, `//./` or `//server` leader and a drive, upper-casing the drive letter, exactly as `Prefixed` says |
| MuNormalize.ResolveDots | sanitize-filepath.c:91-136 | the token loop on the buffer computes `Loop` of the string |
| MuNormalize.StepBuffer | sanitize-filepath.c:93-135 | one token (empty, `.`, `..` or a name) handled on the buffer as `Step` says |
| MuNormalize.ParentStepBuffer | sanitize-filepath.c:105-129 | a `..` token on the buffer: the scan back, then the cut of the segment before it, unless that segment is `../` or there is none, as `Step` says |
| MuNormalize.TrimTail | sanitize-filepath.c:138-170 | the final `.` / `..` token and the terminator, as `Tail` says, including the "illegal /.." exception |
| MuNormalize.ScanBack | sanitize-filepath.c:109-112 | the backward scan stops at the slash ending the parent directory or at the start, as `BackScan` says |
| MuNormalize.NormalizeGuarantees | sanitize-filepath.c:33-171 | a successful result is no longer than the input, holds no backslash, keeps the leader and drive, and has no `//` after them except at the first position past them (`C://x` keeps its `//`); the only failure is "illegal /.. path" |
| MuNormalize.NormalizeResolvesDots | sanitize-filepath.c:33-171 | past the leader and drive, a successful result holds no `.` segment (save one right after a root slash, which the first token keeps) and no `..` after a name: every `..` left is leading, right after the root, or right after another `..` |
| MuNormalize.NormalizeFailsExactly | sanitize-filepath.c:148-164 | normalization fails exactly when, after the token loop, the part past the leader is a root slash, one segment other than `..`, and a final `..` |
| MuNormalize.LoopedResolved | sanitize-filepath.c:86-136 | the token loop ends on a last token with no slash after it, at a segment start, with every segment before it resolved and no `//` |
| MuNormalize.LoopResolvesDots | sanitize-filepath.c:91-136 | each turn keeps the segments before `p` resolved, so the loop ends with them resolved |
| MuNormalize.StepResolvesDots | sanitize-filepath.c:93-134 | a turn removes an empty or `.` token, removes a `..` with the parent before it unless that parent is `..`, and otherwise keeps a token that leaves the segments before `p` resolved |
| MuNormalize.ParentDotDotAdjacent | sanitize-filepath.c:108-121 | a `..` whose backward scan finds a `../` parent sits right after it |
| MuNormalize.TailResolvesDots | sanitize-filepath.c:138-170 | the final `.` or `..` is dropped or kept so that the whole result is resolved |
| MuNormalize.NormalFormIsFixed | sanitize-filepath.c:33-171 | a path with no `\`, an upper-case drive letter if any, no `//` past the leader and drive, no `.` segment (save one right after a root slash) and no `..` after a name normalizes to itself |
| MuNormalize.StepKeepsNormalForm | sanitize-filepath.c:93-135 | on such a path every token is kept and the loop moves past it |
| MuNormalize.LoopKeepsNormalForm | sanitize-filepath.c:91-136 | on such a path the token loop changes nothing |
| MuNormalize.TailKeepsNormalForm | sanitize-filepath.c:138-170 | on such a path the final token is kept |
| MuNormalize.LastTokenSegments | sanitize-filepath.c:138-148 | the final token is `.` or `..` exactly when the segment there is, at the end of the string |
| MuNormalize.TailFailsExactly | sanitize-filepath.c:148-164 | the final `..` raises "illegal /.. path" exactly when its parent is the one segment after a root slash |
| MuNormalize.DriveLetterUpperCased | sanitize-filepath.c:76-84 | a leading drive letter survives normalization upper-cased, followed by its colon |
| MuNormalize.LoopLeavesNoEmptyDirectories | sanitize-filepath.c:91-136 | after the loop no `//` remains past the first token |
| MuNormalize.LoopKeepsAbsent | sanitize-filepath.c:91-136 | the loop never introduces a byte that was not in its input |
| MuNormalize.ExampleUnresolvableParentKept | sanitize-filepath.c:105-129 | `a/../../b` normalizes to `../b` |
| MuNormalize.ExampleDriveKept | sanitize-filepath.c:52-84 | `c:\a\..\b` normalizes to `C:/b` |
| MuNormalize.ExampleClimbAboveRoot | sanitize-filepath.c:162 | `/x/..` raises "illegal /.. path" |
| MuNormalize.ExampleRootParentKept | sanitize-filepath.c:86-90 | `/..` is left as `/..` because the root slash belongs to the first token |
| MuNormalize.ExampleParentOfRelative | sanitize-filepath.c:138-170 | `x/..` normalizes to the empty path |
| MuNormalize.ExampleTrailingDot | sanitize-filepath.c:99-170 | `a/b/../c/.` normalizes to `a/c` |
| MuNormalize.ExampleLongPathLeader | sanitize-filepath.c:62-104 | `//?/C:/a/./b` normalizes to `//?/C:/a/b` |
| MuNormalize.ExampleRootDotKept | sanitize-filepath.c:86-104 | `/./x` is left as it is |
| MuReserved.ReservedMatchesRules | sanitize-filepath.c:291-346 | the first-byte `switch` of `is_reserved_filename` accepts exactly the names of the flat rule list `ReservedByRules`: it loses no rule and adds none |
| MuReserved.ReservedIgnoresCase | sanitize-filepath.c:200-346 | two names that differ only in letter case get the same verdict |
| MuReserved.DeviceNamesReserved | sanitize-filepath.c:300-343 | `aux`, `con`, `dev`, `nul`, `null`, `prn`, `stdin`, `stdout`, `stderr` and `__macosx` are reserved, bare or with an extension |
| MuReserved.PortNamesReserved | sanitize-filepath.c:309-314 | `com` or `lpt` followed by a digit is reserved whatever follows |
| MuReserved.DeviceExamples | sanitize-filepath.c:302-321 | `CON` and `Aux.txt` are reserved |
| MuReserved.PortExample | sanitize-filepath.c:313-314 | `LPT9` is reserved |
| MuReserved.DotfileExamples | sanitize-filepath.c:306-335 | `.lock` and `desktop.ini.bak` are reserved |
| MuReserved.ReservedMarkerExamples | sanitize-filepath.c:293-342 | `~temp`, `file~`, `-rf` and `x_vti_y` are reserved |
| MuReserved.VtiAtEndNotReserved | sanitize-filepath.c:222-234 | `_vti_` at the very end of a name is not found, because the scan stops one position early |
| MuReserved.DsStoreNotReserved | sanitize-filepath.c:334-336 | `.ds_store` is accepted, because its test follows a `return` |
| MuReserved.LookAlikesNotReserved | sanitize-filepath.c:300-345 | `COM` without a digit and `console` are accepted |
| MuReserved.NotPrefixAt | sanitize-filepath.c:200-204 | a byte that differs, ignoring case, within the prefix rules the prefix out |
| MuReserved.NotPostfixAt | sanitize-filepath.c:206-213 | a byte that differs, ignoring case, within the postfix rules the postfix out |
| MuSanitize.SanitizePathEx | sanitize-filepath.c:471-913 | always returns 0; a non-NULL buffer ends up holding `Sanitized` of its old C string under the caller's set and replacements |
| MuSanitize.SanitizePath | sanitize-filepath.c:415-436 | a NULL buffer and a buffer too small for the copy raise their messages, the latter leaving the buffer alone; otherwise the result is 0 and the buffer holds `Sanitized` of the path (or of its own string) with the default rules from offset 0 |
| MuSanitize.SanitizeBufferIn | sanitize-filepath.c:498-910 | the in-place pass leaves exactly `Sanitized` of the old contents, terminated |
| MuSanitize.PrepareIn | sanitize-filepath.c:498-619 | unixification from the offset plus the leader or offset-slash handling compute `Prepared` |
| MuSanitize.LeadIn | sanitize-filepath.c:520-598 | the leader handling on the buffer agrees with `Lead` |
| MuSanitize.DotLeadIn | sanitize-filepath.c:552-570 | a leading `./` is cut off the buffer and a leading run of `../` is skipped, as `Lead` says |
| MuSanitize.ServerIn | sanitize-filepath.c:538-549 | the `//server` scan ends where `ServerEnd` says |
| MuSanitize.SkipParentsIn | sanitize-filepath.c:552-571 | the `../` chain is skipped exactly as `SkipParents` says |
| MuSanitize.DriveIn | sanitize-filepath.c:579-595 | a drive letter is upper-cased and skipped as `Drive` says |
| MuSanitize.CleanIn | sanitize-filepath.c:629-907 | the main loop on the buffer computes `Clean` of the prepared string |
| MuSanitize.TurnIn | sanitize-filepath.c:629-907 | one turn of the main loop on the buffer is one step of `Clean` |
| MuSanitize.SeparatorTurnIn | sanitize-filepath.c:644-708 | a `/` closes the segment: the replacement run is collapsed, the segment is checked and one `/` is written |
| MuSanitize.CloseSegmentIn | sanitize-filepath.c:644-708 | a closed segment that needs no renaming gets its `/`, and the `/` run after it in the input is skipped |
| MuSanitize.RewriteTurnIn | sanitize-filepath.c:631-905 | any other byte: collapse, then rewrite one unit as `Rewrite` says |
| MuSanitize.CollapseIn | sanitize-filepath.c:631-637 | the run of replacements before a kept byte is cut down as `Collapse` says |
| MuSanitize.SequenceIn | sanitize-filepath.c:755-789 | a UTF-8 sequence the legality test accepts is copied whole; otherwise one replacement is written |
| MuSanitize.SkipFormatIn | sanitize-filepath.c:711-725 | a `printf` specifier is skipped past its flags, width, length modifier and conversion |
| MuSanitize.SanitizedNeverLonger | sanitize-filepath.c:471-913 | the sanitized path is never longer than the input, since it is rewritten in place |
| MuSanitize.SanitizedRegion | sanitize-filepath.c:498-910 | the result is the kept leader followed by a region made only of `/` and bytes the rules emit |
| MuSanitize.SanitizedSegments | sanitize-filepath.c:644-708 | with no `/` among the replacements, every segment a `/` closes is non-empty, not reserved and at most 255 bytes |
| MuSanitize.SanitizedKeepsPrefix | sanitize-filepath.c:498-508 | the bytes before `start_at_offset` are left alone, and an offset past the end changes nothing |
| MuSanitize.SanitizedNoBackslash | sanitize-filepath.c:511-516 | sanitizing from offset 0 leaves no backslash unless a replacement is one |
| MuSanitize.StepRenaming | sanitize-filepath.c:647-673 | a closed segment that needs renaming makes the pass give no result |
| MuSanitize.FormatSpecifierRule | sanitize-filepath.c:711-725 | with `f` in the set, a whole `%` format specifier becomes the replacement mapped to `f` |
| MuSanitize.SetRule | sanitize-filepath.c:728-747 | a byte of the caller's set becomes the replacement at its index, or the last one when the map is shorter; a `#` also swallows the `#`s after it |
| MuSanitize.ReplacedRule | sanitize-filepath.c:790-804 | control bytes, DEL and the banned bytes become one `_` |
| MuSanitize.BraceRule | sanitize-filepath.c:807-817 | `{ [ <` become `(` and `} ] >` become `)` |
| MuSanitize.KeptRule | sanitize-filepath.c:858-864 | letters, digits and `_ ( )` are copied |
| MuSanitize.DotRule | sanitize-filepath.c:818-836 | a `.` is kept exactly when another byte follows that is neither `.` nor `/`; otherwise it becomes `_` |
| MuSanitize.DollarRule | sanitize-filepath.c:837-857 | a `$` is kept exactly inside a name, not after `:` or `/` and not before `/` or the end; otherwise it becomes `_` |
| MuSanitize.DashRule | sanitize-filepath.c:865-891 | a `-` is kept exactly when it is not first in its segment and not before `/` or the end; otherwise it becomes `_` |
| MuSanitize.OtherAsciiRule | sanitize-filepath.c:899-905 | every other ASCII byte becomes `_` |
| MuSanitize.DefaultReplacement | sanitize-filepath.c:475-496 | without a set or a replacement string only `_` replaces |
| MuSanitize.ExampleReplacementRun | sanitize-filepath.c:631-637 | `??b` sanitizes to `_b`: the run collapses once a kept byte follows |
| MuSanitize.ExampleTrailingRun | sanitize-filepath.c:631-637 | `??` sanitizes to `__`: a trailing run is not collapsed |
| MuSanitize.ExampleUncDriveFirstPass | sanitize-filepath.c:579-619 | `//?/C:/x` sanitizes to `//?/C:x`: the drive is kept with its `/`, which the skip of leading `/` then drops |
| MuSanitize.ExampleUncDriveSecondPass | sanitize-filepath.c:579-619 | `//?/C:x` sanitizes to `//?/C_x`: after `//?/` a drive without a `/` is not kept, and its `:` is banned |
| MuSanitize.SanitizedTwiceDiffers | sanitize-filepath.c:579-619 | the pass is not idempotent: sanitizing the result for `//?/C:/x` changes it |
| MuSanitize.LeadLiteralPrefix | sanitize-filepath.c:526-534 | after a `//?/` leader the drive test follows at offset 4 |
| MuSanitize.PreparedUncDriveSlash | sanitize-filepath.c:579-592 | the drive of `//?/C:/x` is kept, with the region starting after `C:` |
| MuSanitize.PreparedUncDriveNoSlash | sanitize-filepath.c:579-592 | the drive of `//?/C:x` is not kept |
| MuRelative.MkRelativePath | sanitize-filepath.c:919-999 | the buffer receives `Relative(abspath, base)`, cut to fit with its terminator |
| MuRelative.ComparePrefix | sanitize-filepath.c:932-950 | the comparison loop computes `CommonPrefix` |
| MuRelative.WalkUp | sanitize-filepath.c:955-970 | the walk-up emits `../` once per base separator from the common prefix on, plus one |
| MuRelative.JoinRelative | sanitize-filepath.c:973-996 | the walk-up and the remainder, or the target itself when no directory is shared past the drive, as `Relative` says |
| MuRelative.StoreTruncated | sanitize-filepath.c:992-996 | the buffer holds the string cut to `size - 1` bytes and terminated |
| MuRelative.CommonPrefixIsLastSharedSeparator | sanitize-filepath.c:932-950 | the common prefix is 0 or the last position where both paths agree and hold a separator, `\` and `/` alike |
| MuRelative.WalkUpFitsExactly | sanitize-filepath.c:952-969 | the walk-up and its terminator fit the 4096-byte `dotdot` buffer exactly when at most 1364 base separators follow the common prefix, that one included |
| MuRelative.WalkUpCountsBaseSeparators | sanitize-filepath.c:955-970 | the number of `../` steps is the base's separators from the common prefix on, plus one |
| MuRelative.CopiesTargetWithoutSharedDirectory | sanitize-filepath.c:973 | with no separator shared at or past the drive spec, the target is copied unchanged |
| MuRelative.WalksUpFromSharedDirectory | sanitize-filepath.c:955-990 | a shared separator at or past the drive spec makes the result the walk-up followed by the remainder |
| MuRelative.EmptyRemainderEndsOnDotDot | sanitize-filepath.c:975-990 | when nothing remains of the target, the result is made of `..` steps and ends on `..` without a slash |
| MuRelative.RelativeUnixified | sanitize-filepath.c:919-999 | backslashes and slashes are interchangeable: unixifying the inputs unixifies the result |
| MuRelative.ExampleSameDirectory | sanitize-filepath.c:919-999 | `/a/b/c/d1` relative to `/a/b/c/x` is `d1` |
| MuRelative.ExampleSiblingDirectory | sanitize-filepath.c:919-999 | `/a/e/f` relative to `/a/b/c` is `../../../e/f` |
| MuRelative.ExampleOtherDrive | sanitize-filepath.c:973 | a target on another drive is copied as it is |
| MuRelative.ExampleParentDirectory | sanitize-filepath.c:975-990 | a target that is a parent of the base's directory gives a result ending on `..` |
| MuRelative.IsAbsolutePathMeaning | sanitize-filepath.c:1035-1043 | a path is absolute when it starts with `/` or `\`, or with a drive letter and colon followed by a separator or the end; the test reads no further than the terminator |
| MuRelative.IsAbsolutePathUnixified | sanitize-filepath.c:1035-1043 | the verdict does not depend on the separator style |
| MuRelative.ExampleAbsolutePaths | sanitize-filepath.c:1035-1043 | `/usr`, `\\server\share`, `C:\x` and `C:` are absolute; `C:x`, `a/b`, the empty path and a missing path are not |
| MuRelative.MkAbsolutePath | sanitize-filepath.c:1001-1021 | the buffer receives the joined path, cut to fit, then normalized and sanitized; a normalization exception is passed on |
| MuRelative.JoinedIsAbsolute | sanitize-filepath.c:1006-1019 | joining to an absolute base always gives an absolute path |
| MuRelative.ExampleJoinedNormalized | sanitize-filepath.c:1019-1020 | `x` against base `/a/f` joins to `/a/f/../x` and normalizes to `/a/x` |
| BinarizationNames.Namer.constructor | sanitize-filepath.c:3684-3747 | the directory name starts empty and the counter at 0 |
| BinarizationNames.Namer.RegisterSourceFilename | sanitize-filepath.c:3686-3744 | the stored directory name is `DirName(name)`: the sanitized file-name stem, trimmed, then the hash tag with all four hex digits (the corrected write of the Finding below; the source keeps three) |
| BinarizationNames.Namer.MkDstFilename | sanitize-filepath.c:3749-3756 | returns and stores `DstPath` for the current counter, then the counter moves on by one |
| BinarizationNames.PathHashOf | sanitize-filepath.c:3689-3697 | the hash loop over the name gives `CalcHash` of it |
| BinarizationNames.DirNameShape | sanitize-filepath.c:3686-3744 | the directory name fits the buffer with its terminator, is one safe path component, and ends in a tag that records the low 16 bits of the hash |
| BinarizationNames.TagRecordsHash | sanitize-filepath.c:3738-3743 | the four hex digits of the tag read back as the low 16 bits of the hash |
| BinarizationNames.TagsDistinguishHashes | sanitize-filepath.c:3738-3743 | distinct low 16 bits give distinct tags |
| BinarizationNames.Hex4RoundTrip | sanitize-filepath.c:3742 | `%04X` of a value below 0x10000 reads back as that value |
| BinarizationNames.TagAsWrittenDropsLastDigit | sanitize-filepath.c:3742 | a write of size 6 keeps only three digits, so hashes that differ only in the last digit get the same tag |
| BinarizationNames.TagAsWrittenExample | sanitize-filepath.c:3742 | 0xE471 and 0xE476 both give `_HE47` as written |
| BinarizationNames.DirNameAsWrittenCollides | sanitize-filepath.c:3742 | as written, `a/x.c` and `b/x.c` get the same directory name |
| BinarizationNames.SanitizedIsSafe | sanitize-filepath.c:3715-3728 | the sanitizing loop makes any name safe, changes only bytes it turns into `_`, and leaves a safe name alone |
| BinarizationNames.SanitizedIdempotent | sanitize-filepath.c:3715-3728 | sanitizing twice is sanitizing once |
| BinarizationNames.BaseOfIsSafe | sanitize-filepath.c:3715-3735 | the sanitized and stripped stem is a safe name without terminators |
| BinarizationNames.SanitizeInPlace | sanitize-filepath.c:3715-3728 | the buffer loop computes `Sanitized` of the stem |
| BinarizationNames.StripJoiners | sanitize-filepath.c:3729-3735 | the trailing joiners become terminators, leaving the stem cut at `StrippedEnd` |
| BinarizationNames.PutBase | sanitize-filepath.c:3711-3735 | the buffer holds `BaseOf(stem)` and its terminator |
| BinarizationNames.AppendTag | sanitize-filepath.c:3738-3743 | the buffer holds the base, cut to leave room, followed by the tag, and its last byte is a terminator |
| BinarizationNames.FileNameStart | sanitize-filepath.c:3699-3705 | the file name starts after the last `/`, else after the last `\`, else at 0 |
| BinarizationNames.Padded3RoundTrip | sanitize-filepath.c:3753 | `%03d` reads back as its number and is three digits long exactly below 1000 |
| BinarizationNames.DecimalRoundTrip | sanitize-filepath.c:3753 | the decimal digits read back as the number |
| BinarizationNames.NumberedNamesDiffer | sanitize-filepath.c:3753 | numbered file names differ when their numbers do |
| BinarizationNames.NumberedPathsDiffer | sanitize-filepath.c:3749-3756 | in one directory, outputs with different counters never get the same path, whatever the file names, as long as they fit the buffer |
| CrowBase64.Base64Encode | sanitize-filepath.c:4359-4393 | returns `Encoded(data, key)`, one group of four characters per three bytes with `=` padding |
| CrowBase64.Base64EncodeUrlSafe | sanitize-filepath.c:4400-4403 | encodes with the URL-safe alphabet of section 5 of RFC 4648 |
| CrowBase64.Base64Decode | sanitize-filepath.c:4410-4483 | returns `Decoded(data)`, for every input: with the Finding below corrected, fewer than two characters decode to nothing |
| CrowBase64.DecodedSizeOf | sanitize-filepath.c:4425-4439 | the output size is computed from the length and the padding, as `DecodedSize` says, and is 0 for fewer than two characters |
| CrowBase64.DecodedSizeAsWritten | sanitize-filepath.c:4425-4439 | as written, the size computation reads before the input for 0 or 1 characters, and agrees with `DecodedSize` on every longer input |
| CrowBase64.EmptyEncodingReadsBefore | sanitize-filepath.c:4432-4434 | the encoding of no bytes is the empty string, on which the written size computation reads before the input |
| CrowBase64.DecodeEncodeAll | sanitize-filepath.c:4359-4483 | decoding an encoding gives back the data for every input, the empty one included |
| CrowBase64.DecodeInto | sanitize-filepath.c:4450-4481 | the decoding loop fills the output with the decoded body |
| CrowBase64.Encoded | sanitize-filepath.c:4362 | an encoding is `(n + 2) / 3 * 4` characters long |
| CrowBase64.DecodeEncode | sanitize-filepath.c:4359-4483 | decoding an encoding gives back the data, for either alphabet, whenever there is at least one byte |
| CrowBase64.DecodedSizeOfEncoded | sanitize-filepath.c:4425-4439 | the decoder recovers the input size from an encoding's length and padding |
| CrowBase64.EncodedEnd | sanitize-filepath.c:4375-4391 | the last character is `=` exactly when the size is not a multiple of 3, and the one before exactly when the remainder is 1 |
| CrowBase64.EncodedChars | sanitize-filepath.c:4364-4391 | an encoding holds alphabet characters, then at most two `=` |
| CrowBase64.AlphabetsInvert | sanitize-filepath.c:4416-4423 | the decoder's key reads each character of both alphabets back as its position |
| CrowBase64.SpanOfDecodedSize | sanitize-filepath.c:4425-4464 | decoding never reads past the input |
| CrowBase64.RfcEncodings | sanitize-filepath.c:4359-4393 | `f`, `fo` and `foo` encode to `Zg==`, `Zm8=` and `Zm9v`, as in section 10 of RFC 4648 |
| CrowBase64.RfcDecodings | sanitize-filepath.c:4410-4483 | `Zm9vYg==` and the unpadded `Zm9vYg` both decode to `foob` |
| CrowSanitize.SanitizeFilename | sanitize-filepath.c:4504-4586 | returns `Sanitized(data, replacement)` |
| CrowSanitize.SanitizeSpecialFile | sanitize-filepath.c:4515-4536 | when the pattern (and a digit, if asked for) is found, what it read collapses to the replacement; otherwise the string is unchanged |
| CrowSanitize.PatternEnd | sanitize-filepath.c:4515-4530 | returns a negative value exactly when the pattern is not found, and otherwise where it ends |
| CrowSanitize.SpecialFile | sanitize-filepath.c:4515-4536 | never lengthens the string, keeps what precedes the offset, and writes the replacement at the offset exactly when the pattern is found |
| CrowSanitize.SanitizedIsClean | sanitize-filepath.c:4504-4586 | with a safe replacement, the result is at most 255 characters, has no banned character, no leading separator and no device name or traversal at any segment start, and is no longer than the input |
| CrowSanitize.SanitizedUnchangedIffClean | sanitize-filepath.c:4504-4586 | a clean name is left as it is; with a safe replacement, a name left as it is was clean |
| CrowSanitize.SanitizedIdempotent | sanitize-filepath.c:4504-4586 | sanitizing twice is sanitizing once |
| CrowSanitize.SanitizedBehindCleanDirectory | sanitize-filepath.c:4537-4585 | behind a clean directory prefix, the rest of the name is sanitized as a name of its own |
| CrowSanitize.SanitizedOneSegment | sanitize-filepath.c:4569-4584 | a name without separators and without a device name or traversal at its start only has its banned characters replaced |
| CrowSanitizeExamples.PlainPathKept | sanitize.cpp:180 | `abc/def` is kept |
| CrowSanitizeExamples.ParentCollapses | sanitize.cpp:181 | `abc/../def` becomes `abc/_/def` |
| CrowSanitizeExamples.TraversalsCollapse | sanitize.cpp:182 | every traversal segment collapses, whatever its separators |
| CrowSanitizeExamples.FourDotsCollapse | sanitize.cpp:183 | of four dots only the first two collapse |
| CrowSanitizeExamples.DotsInsideNameKept | sanitize.cpp:184 | dots inside a name are kept |
| CrowSanitizeExamples.LeadingParentCollapses | sanitize.cpp:185 | a leading `..` collapses |
| CrowSanitizeExamples.AuxCollapses | sanitize.cpp:186 | `abc/AUX` becomes `abc/_` |
| CrowSanitizeExamples.AuxDirectoryCollapses | sanitize.cpp:187 | a device name collapses as a directory too |
| CrowSanitizeExamples.AuxColonCollapses | sanitize.cpp:188 | `abc/AUX:` becomes `abc/__` |
| CrowSanitizeExamples.AuxPrefixKept | sanitize.cpp:189 | a longer name that starts like a device is kept |
| CrowSanitizeExamples.AuxExtensionCollapses | sanitize.cpp:190 | a device name with an extension keeps the extension |
| CrowSanitizeExamples.NulCollapses | sanitize.cpp:191-193 | `NUL`, in any case, becomes `_` |
| CrowSanitizeExamples.NuKept | sanitize.cpp:192 | a device name cut short is kept |
| CrowSanitizeExamples.PrinterPortCollapses | sanitize.cpp:194 | a numbered printer port collapses and its separator is kept |
| CrowSanitizeExamples.SerialPortCollapses | sanitize.cpp:195-197 | numbered serial ports collapse |
| CrowSanitizeExamples.ReservedCharactersReplaced | sanitize.cpp:196 | every banned character is replaced |
| CrowSanitizeExamples.SerialPortKept | sanitize.cpp:198 | a serial port name without its number is kept |
| CrowSanitizeExamples.ConsoleCollapses | sanitize.cpp:199 | `abc/CON` becomes `abc/_` |
| CrowSanitizeExamples.LeadingSeparatorReplaced | sanitize.cpp:200 | a leading separator is replaced |
| CrowUtility.NormalizePath | sanitize-filepath.c:4495-4502 | returns `NormalizedPath(path)` |
| CrowUtility.NormalizedPathShape | sanitize-filepath.c:4495-4502 | every character is kept in place except backslashes, which become slashes; at most one character is added; no backslash is left; the result is empty exactly when the input is, and otherwise ends in `/` |
| CrowUtility.NormalizedPathIdempotent | sanitize-filepath.c:4495-4502 | normalizing a normalized path changes nothing |
| CrowUtility.NormalizedPathExamples | sanitize.cpp:170-171 | the expectations of the normalize_path test |
| CrowUtility.StringEqualsOf | sanitize-filepath.c:4618-4638 | answers `StringEquals(l, r, caseSensitive)` |
| CrowUtility.StringEqualsMeaning | sanitize-filepath.c:4618-4638 | case-sensitively, equal exactly when identical; otherwise exactly when the upper-cased strings are identical |
| CrowUtility.StringEqualsEquivalence | sanitize-filepath.c:4618-4638 | case-insensitive equality is an equivalence and follows from case-sensitive equality |
| CrowUtility.Trim | sanitize-filepath.c:4667-4697 | returns `Trimmed(v)` |
| CrowUtility.TrimmedShape | sanitize-filepath.c:4667-4697 | the input is white space, the trimmed string, then white space, and the trimmed string neither starts nor ends with white space |
| CrowUtility.TrimmedIdempotent | sanitize-filepath.c:4667-4697 | trimming twice is trimming once |
| CrowUtility.TrimmedFixes | sanitize-filepath.c:4667-4697 | a string without white space at its ends is its own trim |
| CrowUtility.TrimmedEmpty | sanitize-filepath.c:4667-4697 | exactly the all-space strings trim to nothing |
| CurlSanitizeBuffer.CurlSanitizeFileName | tool_doswin.c:125-348 | a null output slot is a bad argument; otherwise the answer is `SanitizedName(file_name, flags)` |
| CurlSanitizeBuffer.CleanText | tool_doswin.c:151-316 | the copy, root strip, loop and clip on the buffer compute `Cleaned` |
| CurlSanitizeBuffer.SettleIn | tool_doswin.c:332-347 | the renaming (unless ALLOW_RESERVED) and the length check compute `Settled` |
| CurlSanitizeBuffer.SanitizeLoop | tool_doswin.c:188-298 | the loop on the buffer computes `Run` |
| CurlSanitizeBuffer.StepIn | tool_doswin.c:188-298 | one turn of the loop on the buffer is `Step` |
| CurlSanitizeBuffer.StrMov | tool_doswin.c:81-86 | when `dst < src`, the `strlen(src) + 1` bytes from `src` on (the string and its terminator) are moved down to `dst` with `memmove`; otherwise nothing changes, as `Moved` says |
| CurlSanitizeBuffer.ClipIn | tool_doswin.c:300-316 | the trailing clip walks back over spaces and dots as `Clipped` says |
| CurlSanitizeBuffer.LoadIn | tool_doswin.c:151-183 | the copy, the relative-only root strip and the `\\?\` skip compute `Loaded` |
| CurlSanitize.SanitizedNameCodes | tool_doswin.c:125-348 | a copy comes back exactly on success, and every other answer is the invalid-path error; a name over the limit without ALLOW_TRUNCATE is that error |
| CurlSanitize.SanitizedNameIsClean | tool_doswin.c:125-348 | a sanitized name fits the limit and holds no control byte and no banned byte, with colons never allowed under ONLY_RELATIVE |
| CurlSanitize.SanitizedNameHasNoDevices | tool_doswin.c:332-344 | without ALLOW_RESERVED neither the start nor the base name of the result is a DOS device name |
| CurlSanitize.CleanedAllowed | tool_doswin.c:188-316 | after the loop and the clip every byte is allowed, except for a kept literal `\\?\` prefix |
| CurlSanitize.RunKeepsClean | tool_doswin.c:188-298 | the loop leaves every byte after its start allowed |
| CurlSanitize.StepKeepsClean | tool_doswin.c:188-298 | each turn of the loop keeps the processed bytes allowed |
| CurlSanitize.SettledIsClean | tool_doswin.c:332-347 | renaming and the length check keep a clean text clean |
| CurlSanitize.EffectiveFlags | tool_doswin.c:158-160 | ALLOW_ONLY_RELATIVE_PATH turns on ALLOW_PATH and bans colons |
| CurlSanitize.RootEnd | tool_doswin.c:162-170 | the strip starts past a literal `\\?\` prefix, runs over separators only, and stops at a byte that is not one |
| CurlSanitize.LoadedStripsRoot | tool_doswin.c:157-175 | under ALLOW_ONLY_RELATIVE_PATH the loop starts at offset 0 of the name with its `\\?\` prefix and every separator after it removed |
| CurlSanitize.SanitizedNameIsRelative | tool_doswin.c:157-175 | under ALLOW_ONLY_RELATIVE_PATH without ALLOW_DOTFILES a sanitized name never starts with `/` or `\` |
| CurlSanitize.CleanedIsRelative | tool_doswin.c:157-298 | under the same flags the cleaned text starts with no separator, space or dot |
| CurlSanitize.StepKeepsHead | tool_doswin.c:188-298 | each turn of the loop keeps the first byte off the separators, and off spaces and dots once passed |
| CurlSanitize.RunKeepsHead | tool_doswin.c:188-298 | so does the whole loop |
| CurlSanitize.SepStepKeepsHead | tool_doswin.c:222-251 | the trim before a separator stops short of offset 0 once the first byte is neither space nor dot |
| CurlSanitize.ColonStepKeepsHead | tool_doswin.c:261-274 | a squeezed colon never moves the first byte |
| CurlSanitize.CleanedDotSpaceIsAbsolute | tool_doswin.c:222-251 | under ALLOW_ONLY_RELATIVE_PATH with ALLOW_DOTFILES, `. /x` becomes `/x` |
| CurlSanitize.RunReplaces | tool_doswin.c:188-298 | a control byte, a banned byte, or a separator without ALLOW_PATH becomes `_` |
| CurlSanitize.RunKeeps | tool_doswin.c:188-298 | a byte no rule applies to is stepped over unchanged |
| CurlSanitize.RunOverPlain | tool_doswin.c:188-298 | a run of plain bytes passes through unchanged |
| CurlSanitize.CleanedBannedChars | tool_doswin.c:92 | `f?*foo` becomes `f__foo` |
| CurlSanitize.CleanedUrl | tool_doswin.c:188-298 | `http://x` becomes `http/x` under ALLOW_PATH |
| CurlSanitize.SanitizedBannedChars | tool_doswin.c:92 | `f?*foo` comes back from the whole function as `f__foo` |
| CurlDosWin.TruncateDryrun | tool_doswin.c:423-452 | answers `Dryrun(path, pos)` |
| CurlDosWin.DryrunOkMeaning | tool_doswin.c:403-452 | an accepted cut keeps a file name byte, and the kept file name holds no colon |
| CurlDosWin.DryrunGood | tool_doswin.c:423-452 | a cut after a separator with no colon or separator before it in the kept file name is accepted |
| CurlDosWin.DryrunDocTable | tool_doswin.c:403-413 | the eleven documented examples of `truncate_dryrun` |
| CurlDosWin.MaxSanitizedLen | tool_doswin.c:356-396 | the long-path limit for a relative-only request that may not truncate; under ALLOW_PATH the long limit for `\\` names or long-path systems and PATH_MAX - 1 otherwise; 255 for a bare file name |
| CurlDosWin.RenameIfReservedDosDeviceName | tool_doswin.c:625-790 | a null output slot is a bad argument; otherwise the answer is `Renamed(file_name, flags)` |
| CurlDosWin.RenameTurn | tool_doswin.c:679-744 | one turn of the renaming loop computes `RenameAt` |
| CurlDosWin.PrependTurn | tool_doswin.c:715-741 | the `_` insertion computes `Prepended` |
| CurlDosWin.RenameAtShape | tool_doswin.c:679-744 | a turn changes nothing exactly when no device name is at the position, and keeps what comes before it |
| CurlDosWin.RenameAtRemovesDevice | tool_doswin.c:679-744 | after its turn no device name is left at the position |
| CurlDosWin.RenamedRemovesDevices | tool_doswin.c:625-790 | on success neither the start nor the base name of the result is a device name, UNC paths under ALLOW_PATH aside |
| CurlDosWin.RenamedChars | tool_doswin.c:625-790 | on success every byte of the answer is `_` or a byte of the name |
| CurlDosWin.RenamedKeepsHead | tool_doswin.c:625-790 | on success the answer starts with the name's first byte or with an inserted `_` |
| CurlDosWin.RenameAtKeepsHead | tool_doswin.c:679-744 | a turn keeps the first byte or makes it the inserted `_` |
| CurlDosWin.PassesKeepsHead | tool_doswin.c:679-790 | so does the renaming loop |
| CurlDosWin.RenamedLeavesUncPaths | tool_doswin.c:661-667 | under ALLOW_PATH a name starting with `\\` comes back unchanged, cut to the limit |
| CurlDosWin.RenamedKeepsOrdinaryNames | tool_doswin.c:625-790 | a name with no device name at its start or base comes back unchanged |
| CurlDosWin.RenamedBareDevice | tool_doswin.c:672 | `CON` becomes `_CON` |
| CurlDosWin.RenamedDeviceWithExtension | tool_doswin.c:672 | `CON.EXT` becomes `CON_EXT` |
| CurlDosWin.RenamedDeviceWithStream | tool_doswin.c:672 | `CON:ADS` becomes `CON_ADS` when colons are not allowed |
| CurlDosWin.RenamedBaseName | tool_doswin.c:613-620 | `C:/COM1` becomes `C:/_COM1` under ALLOW_PATH |
| CurlDosWin.RenamedSkipsUncPaths | tool_doswin.c:617-620 | `\\.\COM1` is left alone under ALLOW_PATH |
| CurlDosWin.DeviceAtFirstSegment | tool_doswin.c:681-687 | whether a device name starts a path depends only on its first segment |
| StdioPath.IsStdioPathByName | is_stdio.cc:33-75 | a stream comes back exactly for the recognized names, ignoring case; any other path comes back unchanged |
| StdioPath.IsStdioPathIgnoresCase | is_stdio.cc:33-75 | changing the case of letters never changes the verdict |
| StdioPath.PortBranch | is_stdio.cc:60-68 | the digit and terminator tests of the port branch accept exactly the lower-cased port names: `com` or `lpt`, an optional digit 1-9, an optional `:` |
| StdioPath.NameClasses | is_stdio.cc:35-73 | the rules' name sets are pairwise disjoint and hold no port name |
| StdioPath.ProcessPathAsStdio | is_stdio.cc:78-88 | returns 1 and stores the handle exactly when a stream is recognized, otherwise 0 |
| StdioPath.KeywordsAgreeWithStdioPath | is_stdio.cc:33-75 | every keyword of the channel table is recognized as the stream of its channel |
| SystemChannels.InWordSet | system_channels.hashcheck.cpp:160-176 | on a C string (no NUL inside), a hit has its length in range and is the table's keyword |
| SystemChannels.HashIsPerfect | system_channels.hashcheck.cpp:61-158 | every occupied slot holds a keyword whose hash is that slot |
| SystemChannels.FoundIsKeyword | system_channels.hashcheck.cpp:160-176 | whatever the recognizer finds is a keyword with its channel |
| SystemChannels.AllKeywordsFound | system_channels.hashcheck.cpp:119-176 | every keyword is found, with its channel |
| SystemChannels.InWordSetExactly | system_channels.hashcheck.cpp:160-176 | a C string (no NUL inside) is found exactly when it is one of the 15 keywords, and then with that keyword's channel |
| SystemChannels.MixedCaseRejected | system_channels.hashcheck.cpp:64-92 | lookup is case-sensitive: `Con` is not a keyword |
| PathHelpers.AntiquatedDosDeviceExactly | sanitize.cpp:36-55 | accepted are 3 to 5 bytes that start with a device name, or a port name with an optional digit 1-9 and an optional `:` |
| PathHelpers.DosDeviceOverloadsAgree | sanitize.cpp:57-64 | the one-argument overload is the two-argument one at the string's length |
| PathHelpers.SplitFile | sanitize.cpp:489-503 | the file part follows the last `/`; the directory part precedes it without its trailing `/` run, or is `/` |
| PathHelpers.SplitExtension | sanitize.cpp:505-515 | splits before the last extension dot of the final component, otherwise the extension is empty |
| PathHelpers.RelativePath | sanitize.cpp:456-487 | returns `RelativeComponents`: `.` for equal paths, else `..` per base component past the common prefix, then the rest of the path |
| PathHelpers.CommonComponents | sanitize.cpp:468-471 | the first scan computes `CommonPrefixLength` |
| PathHelpers.RelativePathResolves | sanitize.cpp:456-487 | following the relative path from the base leads to the path, when the path's components past the common prefix are plain names |

## Left out

- `msdosify` (tool_doswin.c:473-604) and the MSDOS `stat` branch of the
  renaming (tool_doswin.c:753-786). They are DJGPP-only code and depend on the
  file system.
- The file system and OS calls of sanitize-filepath.c (`fz_chdir`, `mkdir`,
  `stat` and the other calls at 1047-1689). Whatever they touch is outside the
  process.
- curl's output plumbing copied into sanitize-filepath.c (1804-2595).
- The Win32 helpers.
- crow's templates, `lexical_cast`, `random_alphanum` and `join_path`. They are
  generic C++ glue, and one depends on a random generator.
- Helpers whose source is not shown are parameters of the model:
  - `fz_chartorune_unsafe` and the legal-code-point test are a `Decoder` and a
    `legal` predicate;
  - `fz_strrcspn` gives the directory and drive lengths;
  - `tool_basename` is taken to split after the last `/` or `\`;
  - the Windows version query fixes the long-path limit.
- MuSanitize.Sanitized: the renaming of a rejected segment goes through
  `rigorously_clean_fname`, whose loop never advances `s`
  (sanitize-filepath.c:354-366). So any closed segment that is reserved or
  longer than 255 bytes never finishes, and the loop writes past the buffer.
  The model gives no result (`None`) there (`StepRenaming`), and the methods
  require a result.
- MuSanitize.Sanitized: the pass is not idempotent. After a `//?/` leader a
  drive followed by `/` is kept (sanitize-filepath.c:579-592), and the skip of
  leading `/` at 618-619 then drops that `/`. So `//?/C:/x` becomes
  `//?/C:x`, and a second pass turns that into `//?/C_x`
  (`SanitizedTwiceDiffers`). The model keeps this as written.
- MuSanitize.ValidRules: the decoder is assumed to behave as
  `fz_chartorune_unsafe` is expected to, whose source is not part of this
  model. It consumes at least one byte and never reads past the end
  (`DecoderStaysWithin`). A code point it accepts after a byte above 0x7F is
  made only of bytes above 0x7F (`DecoderReadsSequence`). The guarantee that
  the pass writes only allowed bytes rests on that second assumption.
- Reads past a terminator, such as `strchr` finding the NUL or the leader test
  reading `e[3]`, are excluded by preconditions rather than modelled.
- MuRelative.WalkUp: the walk-up is an unbounded string. The source writes it
  into `char dotdot[PATH_MAX]` without a bound check and asserts the bound only
  afterwards, so 1365 or more base separators past the common prefix overrun
  the buffer; `WalkUpFitsExactly` states where that starts, and the model goes
  on as if the buffer were large enough.
- Memory allocation is taken to succeed. `ErrOutOfMemory` is declared for its
  number, but no modelled operation returns it: the `malloc` and `realloc`
  failures of `curl_sanitize_file_name` (tool_doswin.c:151-153) and
  `rename_if_reserved_dos_device_name` (tool_doswin.c:654-656, 728-731,
  771-774) are not modelled.
- BinarizationNames.Namer.RegisterSourceFilename: the class writes the
  corrected tag of the Finding below, four hex digits, where the source's
  `snprintf` size of 6 keeps three; `DirNameAsWritten` is the written form.
- CrowBase64.Base64Decode, CrowBase64.DecodedSizeOf, CrowBase64.DecodedSize
  and CrowBase64.Decoded: inputs of fewer than two characters decode to
  nothing, where the source reads `data[size - 2]` before the input (the
  Finding below); the round trip `DecodeEncodeAll` relies on it for the empty
  encoding.
- MuRelative.StoreTruncated: `fz_snprintf` and `fz_strncpy_s` are assumed to
  cut to `size - 1` bytes and terminate.
- The naming helper:
  - `PATH_MAX` is fixed at 4096;
  - `isalnum` of bytes at or above 0x80 is false;
  - a file name without `.` is excluded, because `ext - fn` is undefined there;
  - the `int` counter stays below 0x7FFF_FFFF;
  - the output path buffer is a string.
- Integer widths: the hash is 64-bit (`bv64`). Lengths are unbounded naturals,
  because the buffers the source uses are far below any overflow.
- `fz_normalize_path` accepts `/..` as its first token, and `C:\..\b0rk`,
  although its doc comment (sanitize-filepath.c:30-31) says such a path
  throws. The model follows the code, and `NormalizeFailsExactly` states the
  one case that throws.
- `fz_sanitize_path_ex` returns 0 on every path past its null check
  (sanitize-filepath.c:912), although its doc comment (464-468) promises 1 or
  2 and more when the file name or a directory was sanitized. The model
  follows the code and gives no such count.
- CurlSanitize.SanitizedName: under ALLOW_ONLY_RELATIVE_PATH with
  ALLOW_DOTFILES the result can still start with `/`. A segment of kept dots
  and spaces before the first separator is trimmed back to offset 0 by the
  separator rule (tool_doswin.c:236-245). So `. /x` becomes `/x`
  (`CleanedDotSpaceIsAbsolute`). The model keeps this as written.
  `SanitizedNameIsRelative` proves the relative-only promise without
  ALLOW_DOTFILES only.
- PathHelpers.RelativePath: it works on component lists rather than calling
  `split`, `joinSequence` and `absolutePath`, and it leaves out the branch of
  sanitize.cpp:461-462 for one absolute and one relative path.
- Concurrency and the C++ exception object are not modelled. An exception is
  its message in an `Outcome`.

## Findings

| source | as written | input that shows it | evidently intended | confidence | as-written member | corrected member |
|---|---|---|---|---|---|---|
| sanitize-filepath.c:4432-4434 | the padding test reads `data[size - 2]`, and then `data[size - 1]`, whenever the length is 0 or 1 modulo 4, with no check that the input is that long | `base64decode("", 0)`, the decoding of the encoding of no bytes, reads `data[-2]` | inputs of fewer than two characters decode to nothing, so that every encoding decodes back | not executed | CrowBase64.EmptyEncodingReadsBefore | CrowBase64.DecodeEncodeAll |
| sanitize-filepath.c:3742 | the tag `_H%04X` is written with a size of 6, so only `_H` and three hex digits survive | `a/x.c` and `b/x.c` (low 16 bits 0xE471 and 0xE476) both get the directory name `x_HE47` | a size of 7, keeping all four digits; the clamp to `PATH_MAX - 7` reserves that room | not executed | BinarizationNames.DirNameAsWrittenCollides | BinarizationNames.DirNameShape |
