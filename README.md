# FileCLI format and dialect inference, in Dafny

This project models the core of FileCLI, a command-line tool that classifies and validates data files. The core has four parts:

- **File type classification** (`file_handling/analyze/file_type_analyzer.py`). The `FileType` table gives each type an extension, a description, a byte signature, a text flag and a default delimiter. `FileTypeAnalyzer` classifies a file three ways: by extension, by the signature in its first 16 bytes, and by the characteristics of up to 21 lines. It then merges the three answers with a fixed seven-step precedence.
- **Dialect sniffing** (`file_handling/analyze/sniffer.py`). `FileSniffer` holds a byte sample and caches five dialect settings: encoding, delimiter, line terminator, quote character and header. Each is inferred the first time it is read. Setters refuse a value of the wrong enum type.
- **Levenshtein distance with a cut-off** (`helpers/levenshtein.py`).
- **Validation conditions** (`validator/conditions.py`). Each condition scores a value 0.0 or 1.0.

Modules:

| file | module | what it holds |
|---|---|---|
| `wrappers.dfy` | `Wrappers` | `Option` and `Result` |
| `byte_counting.dfy` | `ByteCounting` | bytes, Python's `bytes.count` (non-overlapping, left to right), first-maximum selection as done by `max(..., key=...)` |
| `file_types.dfy` | `FileTypes` | the `FileType` enumeration and its table, `from_extension`, signature matching |
| `file_type_analyzer.dfy` | `FileTypeAnalyzer` | classification by characteristics and the merge |
| `sniffer_rules.dfy` | `SnifferRules` | the sniffer's enumerations, `Encoding.get`, and every inference rule as a pure function |
| `sniffer.dfy` | `Sniffer` | the sniffer's cached state: a `State` value with getter and setter functions, and the class `FileSniffer` whose methods are proved against them |
| `levenshtein.dfy` | `Levenshtein` | `str.strip`, the edit distance it computes, and the row-by-row computation with its cut-offs |
| `conditions.dfy` | `Conditions` | `HeaderContains`, `HasHeader`, `FieldLength`, `RegularLineLength` |

The sniffer relies on code outside the core: decoding, `chardet.detect`, `File.get_random_sample`, `csv.Sniffer` and `csv.reader`. The model takes all of them as one parameter of type `SnifferRules.Oracles`. It holds a decoding predicate, a detector, a resampler, a quote sniffer (a function of the delimiter, since the sample it sees is fixed per call) and a row parser. The resampler is any function of the requested size: `File.get_random_sample` is wrapped in the `cache` decorator of `helpers/decorators.py`, which keys its entries by the method's name alone and renews them after 60 seconds, so within that time every resample of the source returns the first sample whatever size is asked for. The constant resampler is one of those the model allows, so every property stated here holds for it too. `get_data_type`'s parsers (int, float, datetime) are uninterpreted predicates in `FieldParsers`. The model does not touch the file system. A file's suffix and content, or its lines, are the inputs.

How the code behaves where a reader might expect otherwise (each is proved):

- EXCEL (`.xlsx`) and ZIP share the signature `PK\x03\x04`. EXCEL comes first in the enumeration, so classification by signature never answers ZIP (`FileTypes.ZipSignatureGivesExcel`). A ZIP archive with a `.zip` suffix can still end up ZIP after the merge, but only when its characteristics agree (its first line starts with `PK` and it has at least 4 lines).
- `infer_line_terminator` first tests `CRLF > LF + 0.9*CR`. Every `\r\n` also counts as one `\n` and one `\r`, so this test can never succeed (`SnifferRules.WeightedCrlfTestNeverHolds`). The rule comes down to: CRLF when the LF and CR counts are equal (including no line breaks at all), LF when LF is more frequent, CR otherwise. A sample with 100 `\r\n`, 5 lone `\n` and 5 lone `\r` therefore infers CRLF through the equality test, not the weighted one.
- The `lineterminator` getter tests `_line_terminator`, but its setter writes `_lineterminator`. As a result the getter infers again on every read and ignores a value set earlier (`Sniffer.LineTerminatorSetterIgnored`). The model keeps both attributes.
- `infer_delimiter` counts comma, semicolon, tab and space. Ties go to the earliest in that order.
- Merge steps 3 and 5 of `file_type` never decide anything that steps 4 and 6 would not. The merge never answers UNKNOWN (`FileTypeAnalyzer.Merge`).
- `infer_encoding` resamples `BYTES_TO_ANALYZE * i` bytes in round `i`. The first resample therefore asks for 0 bytes (`SnifferRules.FirstResampleIsEmptyRequest`), and the sample stays replaced even when the search fails.
- `Encoding.get("utf-8-sig")` is None, because the member is called `UTF_8_BOM`. So chardet's name for UTF-8 with a BOM is never accepted (`SnifferRules.GetEncodingOfCodecName`).

## Model

| member | source | states |
|---|---|---|
| FileTypes.DefaultDelimiter | file_handling/analyze/file_type_analyzer.py:138-142 | only text types have a delimiter, and exactly CSV, TSV and PIPE have one |
| FileTypes.FromExtension | file_handling/analyze/file_type_analyzer.py:144-149 | the answer carries the given suffix whenever some type does, otherwise it is UNKNOWN; an empty suffix gives UNKNOWN |
| FileTypes.ExtensionRoundTrip | file_handling/analyze/file_type_analyzer.py:144-149 | looking up a type's own extension gives that type back (extensions are distinct) |
| FileTypes.Head | file_handling/analyze/file_type_analyzer.py:225-226 | the signature is read from a prefix of the content of length 16, or the whole content when shorter |
| FileTypes.FromSignature | file_handling/analyze/file_type_analyzer.py:218-232 | UNKNOWN exactly when no non-empty signature prefixes the head; otherwise a type whose signature matches and that comes first in enumeration order among those that match; never ZIP |
| FileTypes.ZipSignatureGivesExcel | file_handling/analyze/file_type_analyzer.py:28-52 | content starting `PK\x03\x04` is classified EXCEL by signature |
| FileTypeAnalyzer.SplitLines | file_handling/analyze/file_type_analyzer.py:242-247 | iterating a binary file yields non-empty lines that concatenate back to the content, each ending in `\n` except possibly the last |
| FileTypeAnalyzer.PrefixRule | file_handling/analyze/file_type_analyzer.py:253-262 | a first line starting with `PK`, `<?xml`, `{`, `[` or `ID` gives ZIP, XML, JSON, JSONL or PDF, each exactly when its prefix is present |
| FileTypeAnalyzer.CounterKeysMembers | file_handling/analyze/file_type_analyzer.py:265 | every key of the counter is a delimiter byte that occurs in the line |
| FileTypeAnalyzer.CounterKeysComplete | file_handling/analyze/file_type_analyzer.py:265 | every delimiter byte that occurs in the line is a key of the counter |
| FileTypeAnalyzer.CounterKeysOrdered | file_handling/analyze/file_type_analyzer.py:265 | the counter's keys are in order of first occurrence in the line, so no key repeats |
| FileTypeAnalyzer.LargestKeyWins | file_handling/analyze/file_type_analyzer.py:265-269 | the first key with the largest count has a count no smaller than any delimiter's, and occurs first among delimiters with the same count |
| FileTypeAnalyzer.MostCommonDelimiter | file_handling/analyze/file_type_analyzer.py:265-269 | `most_common(1)`: none exactly when the line has no delimiter byte; otherwise a present delimiter with a maximal count, and among equal counts the one that occurs first |
| FileTypeAnalyzer.DelimiterRule | file_handling/analyze/file_type_analyzer.py:264-277 | a type is decided exactly when some delimiter occurs more than once; then the most common delimiter byte (the first to occur among those with the largest count) decides it: tab gives TSV, pipe PIPE, comma or semicolon CSV |
| FileTypeAnalyzer.MostCommonUnique | file_handling/analyze/file_type_analyzer.py:265-269 | at most one delimiter byte is the one `most_common(1)` picks: largest count, first occurrence among equal counts |
| FileTypeAnalyzer.Classify | file_handling/analyze/file_type_analyzer.py:253-282 | the prefix rule wins; otherwise delimited when some delimiter repeats, with the type the delimiter rule gives; otherwise FIXED_WIDTH exactly when every sampled line has the same length; otherwise UNKNOWN |
| FileTypeAnalyzer.Characteristics | file_handling/analyze/file_type_analyzer.py:235-282 | an empty file is an error; fewer than 4 lines give UNKNOWN; otherwise the first 21 lines at most are classified |
| FileTypeAnalyzer.FromCharacteristics | file_handling/analyze/file_type_analyzer.py:242-251 | the reading loop, with its early exit after fewer than 4 lines, computes the characteristics answer |
| FileTypeAnalyzer.Merge | file_handling/analyze/file_type_analyzer.py:191-205 | never UNKNOWN; the extension when it is known and agrees with the signature or the characteristics, else a known signature, else known characteristics, else TEXT |
| FileTypeAnalyzer.FileTypeOf | file_handling/analyze/file_type_analyzer.py:180-205 | an empty file is an error; otherwise the answer is known, is the extension's type, the signature's type, the characteristics' type or TEXT, and is the merge of those three |
| ByteCounting.CountOf | file_handling/analyze/sniffer.py:273 | non-overlapping occurrences of a pattern can take at most the sample's length between them |
| ByteCounting.CountOfPositive | file_handling/analyze/sniffer.py:303-306 | a one-byte count is positive exactly when the byte occurs |
| ByteCounting.CrlfCountAtMostLf | file_handling/analyze/sniffer.py:286 | the `\r\n` count never exceeds the `\n` count |
| ByteCounting.CrlfCountAtMostCr | file_handling/analyze/sniffer.py:286 | the `\r\n` count never exceeds the `\r` count |
| ByteCounting.FirstMaxIndex | file_handling/analyze/sniffer.py:274 | `max` with a key picks a maximal entry, and the first among equal maxima |
| SnifferRules.NormalizeName | file_handling/analyze/sniffer.py:77 | same length as the name, with `-` turned into `_` and letters upper-cased |
| SnifferRules.MemberNamedMeaning | file_handling/analyze/sniffer.py:77 | the attribute lookup finds a member whose name is the one asked for, or there is no such member |
| SnifferRules.GetEncoding | file_handling/analyze/sniffer.py:71-79 | no name (chardet found nothing) gives no encoding |
| SnifferRules.GetEncodingMeaning | file_handling/analyze/sniffer.py:71-79 | an encoding is returned exactly when its member name equals the normalised name |
| SnifferRules.GetEncodingOfMemberName | file_handling/analyze/sniffer.py:71-79 | every member is found by its own name |
| SnifferRules.GetEncodingOfCodecName | file_handling/analyze/sniffer.py:50-79 | every member is found by its codec name except UTF_8_BOM, whose codec name `utf-8-sig` finds nothing |
| SnifferRules.BomCodecNameUnknown | file_handling/analyze/sniffer.py:55-77 | `utf-8-sig` names no member |
| SnifferRules.InferDelimiter | file_handling/analyze/sniffer.py:267-274 | a candidate (never NONE) whose count is maximal, and no earlier candidate has the same count |
| SnifferRules.InferLineTerminator | file_handling/analyze/sniffer.py:276-291 | CRLF exactly when the LF and CR counts are equal, LF exactly when LF is more frequent, CR exactly when CR is more frequent |
| SnifferRules.WeightedCrlfTestNeverHolds | file_handling/analyze/sniffer.py:287-288 | the weighted CRLF test fails on every sample |
| SnifferRules.LineTerminatorEdgeCases | file_handling/analyze/sniffer.py:289-290 | a sample with no line breaks, or with only `\r\n` breaks, infers CRLF |
| SnifferRules.CrlfOnlyCounts | file_handling/analyze/sniffer.py:286 | when every break is `\r\n`, the three counts are equal |
| SnifferRules.NoQuoteBytes | file_handling/analyze/sniffer.py:303-306 | true exactly when none of `"`, `'`, `` ` `` occurs in the sample |
| SnifferRules.GetDataType | helpers/__init__.py:4-41 | int before float before datetime before str, each exactly when the earlier parsers fail |
| SnifferRules.DiffCountIsColumnCount | file_handling/analyze/sniffer.py:367 | the summed count is the number of columns whose types differ |
| SnifferRules.HeaderRule | file_handling/analyze/sniffer.py:347-371 | no rows is an error; a typed first row means no header; a missing second row, a zero-width first row or a short second row are errors; otherwise present exactly when more than a tenth of the columns change type; a zero-width all-string first row is ZeroDivisionError, and a missing or short second row under a non-empty all-string first row is the KeyError |
| SnifferRules.HeaderIgnoresLaterRows | file_handling/analyze/sniffer.py:354-367 | only the first two rows matter |
| SnifferRules.HeaderWhenEveryColumnChanges | file_handling/analyze/sniffer.py:362-369 | an all-string first row over a row with no string field means a header |
| SnifferRules.DiffCountAllColumns | file_handling/analyze/sniffer.py:367 | when every column changes type, the count is the width |
| SnifferRules.NoHeaderWhenTypesAgree | file_handling/analyze/sniffer.py:349-371 | when the first two rows agree in type column by column, there is no header |
| SnifferRules.EncodingSearchAgrees | file_handling/analyze/sniffer.py:249-261 | an encoding found decodes the final sample and is the one chardet names for it |
| SnifferRules.EncodingSearchFails | file_handling/analyze/sniffer.py:263-265 | a failed search raises EncodingException, leaving the sample drawn in the last round |
| SnifferRules.EncodingSearchSample | file_handling/analyze/sniffer.py:263 | the final sample is the first sample or one of the resamples |
| SnifferRules.FirstResampleIsEmptyRequest | file_handling/analyze/sniffer.py:249-263 | when the first round fails, the search continues from a sample of 0 bytes requested |
| Sniffer.EncodingSetter | file_handling/analyze/sniffer.py:178-181 | an Encoding value is stored; any other value is refused with TypeError and nothing changes |
| Sniffer.DelimiterSetter | file_handling/analyze/sniffer.py:189-192 | a Delimiter value is stored; any other value is refused with TypeError and nothing changes |
| Sniffer.LineTerminatorSetter | file_handling/analyze/sniffer.py:200-203 | a LineTerminator value is stored in `_lineterminator`; `_line_terminator` is never touched |
| Sniffer.QuotecharSetter | file_handling/analyze/sniffer.py:211-214 | a Quotechar value is stored; any other value is refused with TypeError and nothing changes |
| Sniffer.HeaderSetter | file_handling/analyze/sniffer.py:222-225 | a Header value is stored; any other value is refused with TypeError and nothing changes |
| Sniffer.EncodingGetter | file_handling/analyze/sniffer.py:172-176 | a cached encoding is returned unchanged; otherwise an inferred encoding decodes the (possibly resampled) sample and agrees with chardet, or the read raises EncodingException (decoding failures being the decoding oracle's refusals); only sample and encoding change |
| Sniffer.DelimiterGetter | file_handling/analyze/sniffer.py:183-187 | a cached delimiter is returned; otherwise the inferred one is returned and cached |
| Sniffer.LineTerminatorGetter | file_handling/analyze/sniffer.py:194-198 | with `_line_terminator` unset the terminator is inferred and stored; with it set the stored value is returned, or AttributeError when none was stored |
| Sniffer.QuotecharInference | file_handling/analyze/sniffer.py:293-318 | needs the encoding (its failure propagates); NONE without quote bytes; otherwise the sniffed quote character for the delimiter, NONE when sniffing fails |
| Sniffer.QuotecharGetter | file_handling/analyze/sniffer.py:205-209 | a cached quote character is returned unchanged; a failed inference caches nothing; earlier cached encoding and delimiter are kept |
| Sniffer.HeaderInference | file_handling/analyze/sniffer.py:320-371 | once encoding, delimiter, line terminator and quote character are all settled, the result, errors included, is exactly the header rule over the rows parsed from the sample as it was after the quote-character read, with the settled encoding, delimiter, line terminator and quote character; when one of them is not settled the result is the encoding search's EncodingException or the line-terminator read's AttributeError; it never raises the setters' TypeError |
| Sniffer.HeaderOfSettledState | file_handling/analyze/sniffer.py:320-371 | with encoding, delimiter and quote character known, the header is the header rule over the current sample's rows, split by the terminator inferred from that sample |
| Sniffer.HeaderParsesSampleBeforeEncodingRead | file_handling/analyze/sniffer.py:341-345 | with the quote character set by hand and no encoding known, the rows come from the sample before the encoding read but are decoded with the encoding found for the sample that read leaves behind |
| Sniffer.HeaderGetter | file_handling/analyze/sniffer.py:216-220 | a cached header is returned unchanged; a result is cached only on success |
| Sniffer.EncodingInferredOnce | file_handling/analyze/sniffer.py:172-176 | a second read returns the first read's answer and changes nothing |
| Sniffer.DelimiterInferredOnce | file_handling/analyze/sniffer.py:183-187 | a second read returns the first read's answer and changes nothing |
| Sniffer.QuotecharInferredOnce | file_handling/analyze/sniffer.py:205-209 | a second read returns the first read's answer and changes nothing |
| Sniffer.HeaderInferredOnce | file_handling/analyze/sniffer.py:216-220 | a second read returns the first read's answer and changes nothing |
| Sniffer.SetThenGet | file_handling/analyze/sniffer.py:172-225 | reading encoding, delimiter, quote character or header after setting it returns the value set |
| Sniffer.LineTerminatorSetterIgnored | file_handling/analyze/sniffer.py:194-203 | reading the line terminator after setting it returns the inferred terminator, not the value set |
| Sniffer.LineTerminatorTestedNeverSet | file_handling/analyze/sniffer.py:194-225 | no getter or setter ever changes `_line_terminator` |
| Sniffer.QuotecharWithoutQuoteBytes | file_handling/analyze/sniffer.py:303-307 | with the encoding known and no quote bytes, reading gives NONE and caches it, leaving all else as it was |
| Sniffer.QuotecharWhenSniffFails | file_handling/analyze/sniffer.py:311-318 | when sniffing never finds a dialect, a successful read gives NONE |
| Sniffer.DecodingCandidates | file_handling/analyze/sniffer.py:250-256 | the candidates are exactly the encodings that decode the sample |
| Sniffer.EncodingRound | file_handling/analyze/sniffer.py:250-263 | one round answers the detector's guess exactly when it names an encoding that decodes the sample; otherwise the search continues from the resample of `bytes * i` bytes |
| Sniffer.FileSniffer.constructor | file_handling/analyze/sniffer.py:145-170 | the first sample is the file's sample of the default 16184 bytes; a given byte count only replaces the size for later resamples; nothing is cached |
| Sniffer.FileSniffer.WriteEncoding | file_handling/analyze/sniffer.py:178-181 | result and new state are those of the encoding setter |
| Sniffer.FileSniffer.WriteDelimiter | file_handling/analyze/sniffer.py:189-192 | result and new state are those of the delimiter setter |
| Sniffer.FileSniffer.WriteLineTerminator | file_handling/analyze/sniffer.py:200-203 | result and new state are those of the line-terminator setter |
| Sniffer.FileSniffer.WriteQuotechar | file_handling/analyze/sniffer.py:211-214 | result and new state are those of the quote-character setter |
| Sniffer.FileSniffer.WriteHeader | file_handling/analyze/sniffer.py:222-225 | result and new state are those of the header setter |
| Sniffer.FileSniffer.InferEncoding | file_handling/analyze/sniffer.py:241-265 | the five-round loop returns the encoding search's answer, leaves its final sample in place and changes nothing else |
| Sniffer.FileSniffer.ReadEncoding | file_handling/analyze/sniffer.py:172-176 | result and new state are those of the encoding getter |
| Sniffer.FileSniffer.ReadDelimiter | file_handling/analyze/sniffer.py:183-187 | result and new state are those of the delimiter getter |
| Sniffer.FileSniffer.ReadLineTerminator | file_handling/analyze/sniffer.py:194-198 | result and new state are those of the line-terminator getter |
| Sniffer.FileSniffer.InferQuotechar | file_handling/analyze/sniffer.py:293-318 | result and new state are those of quote-character inference |
| Sniffer.FileSniffer.ReadQuotechar | file_handling/analyze/sniffer.py:205-209 | result and new state are those of the quote-character getter |
| Sniffer.FileSniffer.InferHeader | file_handling/analyze/sniffer.py:320-371 | result and new state are those of header inference |
| Sniffer.FileSniffer.ReadHeader | file_handling/analyze/sniffer.py:216-220 | result and new state are those of the header getter |
| Sniffer.LineTerminatorAfterSetting | file_handling/analyze/sniffer.py:194-203 | on a fresh sniffer, setting the line terminator and then reading it gives the terminator inferred from the sample |
| Sniffer.DelimiterReadTwice | file_handling/analyze/sniffer.py:183-187 | two reads on a fresh sniffer both give the delimiter inferred from the sample |
| Sniffer.WrongTypeRefused | helpers/decorators.py:333-335 | setting the delimiter to a value that is not a Delimiter raises TypeError, and the next read still infers |
| Levenshtein.Strip | helpers/levenshtein.py:15-16 | no longer than the input, and neither end is whitespace |
| Levenshtein.StripMeaning | helpers/levenshtein.py:15-16 | the result is a slice of the input with only whitespace cut from both sides |
| Levenshtein.StripIdempotent | helpers/levenshtein.py:15-16 | stripping twice is stripping once |
| Levenshtein.EditDistance | helpers/levenshtein.py:4-14 | the distance is at least the length difference and at most the longer length |
| Levenshtein.EditDistanceSymmetric | helpers/levenshtein.py:17-18 | the distance does not depend on argument order, which makes the swap harmless |
| Levenshtein.EqualLast | helpers/levenshtein.py:27-28 | matching last characters cost nothing, so the table takes the diagonal |
| Levenshtein.EditDistanceSelf | helpers/levenshtein.py:4-14 | a string is at distance 0 from itself |
| Levenshtein.EditDistanceEmpty | helpers/levenshtein.py:19-23 | the distance to the empty string is the length, as the first row and column of the table say |
| Levenshtein.Distance | helpers/levenshtein.py:15-32 | the computation gives the limit plus one when the longer stripped string has more than limit+1 characters, and the edit distance of the stripped strings otherwise |
| Levenshtein.Table | helpers/levenshtein.py:19-32 | the outer loop over the longer string gives the cut-off value or the edit distance |
| Levenshtein.InitialRow | helpers/levenshtein.py:19 | the starting row holds the distance from each prefix of the shorter string to the empty string |
| Levenshtein.NextRow | helpers/levenshtein.py:23-30 | the inner loop cuts off exactly when the shorter string has more than limit+1 characters, and otherwise builds the next row of distances between prefixes |
| Levenshtein.RowStep | helpers/levenshtein.py:27-30 | each new table entry is the diagonal on a match and one more than the least neighbour otherwise |
| Levenshtein.DistanceSymmetric | helpers/levenshtein.py:17-18 | the answer does not depend on argument order |
| Levenshtein.DistanceAtMostLimit | helpers/levenshtein.py:21-26 | the answer never exceeds the limit plus one |
| Levenshtein.LongInputCutOff | helpers/levenshtein.py:21-22 | a stripped input longer than limit+1 gives exactly limit+1 |
| Levenshtein.ExactWithinLimit | helpers/levenshtein.py:20-32 | inputs no longer than limit+1 after stripping give the true edit distance, so equal stripped strings give 0 |
| Levenshtein.DistanceFromEmpty | helpers/levenshtein.py:19-23 | the distance from an empty string is the stripped length of the other, within the limit |
| Levenshtein.WhitespaceIgnored | helpers/levenshtein.py:15-16 | surrounding whitespace never changes the answer |
| Conditions.Contains | validator/conditions.py:19 | `in` on strings: true exactly when the name occurs as a substring |
| Conditions.LookForNames | validator/conditions.py:18-19 | 1.0 exactly when every configured name occurs in the header row |
| Conditions.LookForNamesVacuous | validator/conditions.py:18-19 | with no names, or only empty names, every header row scores 1.0 |
| Conditions.LookForNamesMissing | validator/conditions.py:18-19 | a name longer than the header row scores 0.0 |
| Conditions.CheckForHeader | validator/conditions.py:30-34 | anything but a file is refused; a file never scores 1.0 |
| Conditions.NewFieldLength | validator/conditions.py:39-41 | accepted exactly for an int greater than zero, True counting as 1; the limit is positive |
| Conditions.CheckFieldLengths | validator/conditions.py:47-52 | 1.0 exactly when every field of every row is at most the limit long |
| Conditions.NewRegularLineLength | validator/conditions.py:57-59 | accepted exactly for a bool, which becomes the expected value |
| Conditions.CheckLineLengths | validator/conditions.py:65-69 | 1.0 exactly when "non-empty and all items of one length" agrees with the expected value |
| Conditions.SingleLengthIffRegular | validator/conditions.py:66-69 | the set of lengths has one element exactly when the list is non-empty and its items have one length |
| Conditions.EmptyListScore | validator/conditions.py:65-69 | an empty list has no single length: it scores 1.0 only when irregular lines are expected |

## Left out

- File I/O: `open`, `Path(...).suffix` and `File.get_random_sample` are not modelled. The suffix, the content, the lines and the samples are inputs.
- Decoding, `chardet.detect`, `csv.Sniffer().sniff` and `csv.reader` are outside the core. They are the fields of `SnifferRules.Oracles`, so errors raised inside them, and `codecs.iterdecode`'s laziness, are not modelled.
- Sniffer.EncodingGetter: `Encoding.ANSI` has the codec name "ansi", an alias of the Windows-only `mbcs` codec. Elsewhere `sample.decode("ansi")` raises LookupError, which the `except UnicodeDecodeError` of `infer_encoding` does not catch, so off Windows every encoding inference (and with it every quote-character and header inference) raises LookupError in its first round. The model's decoding oracle only answers whether a codec decodes the sample, so it describes the platforms where every codec of the enumeration exists.
- Sniffer.QuotecharInference: `Quotechar(dialect.quotechar)` raises ValueError for a quote character outside the enumeration. The model's sniffer oracle can only answer a `Quotechar`, so that error path is not modelled.
- `get_data_type`'s parsers (`int`, `float`, the datetime formats) are uninterpreted predicates. Their grammars are not modelled.
- Sniffer.FileSniffer.constructor: `__init__` eagerly infers whichever settings the file object has attributes for (`_encoding`, `_delimiter`, ...), and that attribute wiring mixes them up. The model leaves every setting unset, as for a file with none of those attributes, because the file classes are not part of the model.
- `infer_file_characteristic`'s dynamic dispatch by name is not modelled.
- Sniffer.QuotecharInference: the `if self.encoding is None` branch never runs, because reading the encoding either returns one or raises. The model reads the encoding once.
- Sniffer.HeaderInference: a delimiter set by hand to `Delimiter.NONE` hands `delimiter=None` to `csv.reader`, which raises TypeError. Like `csv.reader`'s other errors this is not modelled: the model's parse oracle always answers rows.
- Sniffer.HeaderInference: `infer_header` reads the quote character twice. The model reads it once, because the second read returns the cached value.
- SnifferRules.NormalizeName upper-cases ASCII letters only. Python's `str.upper` also maps some non-ASCII letters onto ASCII ones (`'ſ'` to `'S'`, `'ı'` to `'I'`, `'ß'` to `'SS'`), so a name such as "aſcii" finds ASCII in Python and nothing in the model. The detector answers ASCII codec names, so such names do not reach `Encoding.get` from `infer_encoding`.
- SnifferRules.HeaderRule compares integers: `diff / width > 0.1` is written `10 * diff > width`. A zero width is the ZeroDivisionError, and a second row shorter than the first is the KeyError (`MissingField`). The `NoRows` error stands for `next(reader)` raising StopIteration on an empty parse, and `csv.reader`'s own errors are not modelled.
- SnifferRules.InferLineTerminator is stated over integers: `CR * 0.9` is compared as `10*CRLF > 10*LF + 9*CR`. Python computes `cr * 0.9` in binary floating point, where 0.9 is not exact, so the two forms are not the same comparison in general. They give the same answer here only because the test never holds on any sample: the CRLF count is at most both the LF and the CR count (`SnifferRules.WeightedCrlfTestNeverHolds`).
- Levenshtein.Distance takes the limit as a parameter. The default of 10 is not modelled.
- Levenshtein.DistanceAtMostLimit requires a limit of at least -1 or a non-blank input. With a lower limit and two blank inputs, the source returns 0, which exceeds limit+1.
- Logging, timing, call counting, `class_decorator` and the interactive `error_handler` are not modelled. Only the TypeError of `input_type_validation` is kept, as the setters' error.
- The `FileType` members' `__eq__`, `__get__`, `__set__` and `__call__` overrides are not modelled. Types compare by identity, and every member's table value is distinct.
- The validator's scoring and rule machinery (`validator/__init__.py`, `validator/rules.py`, `validator/dnb_validators.py`) and the `FileProperty` condition are not modelled. `FileProperty` reads arbitrary attributes of a file object by name.
- Concurrency: none in the source.
